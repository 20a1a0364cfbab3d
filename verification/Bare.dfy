/** The replay of a branch without joined lists and members: start without its limit on joined topics. */
module Bare {
  import opened Lists
  import opened Chain
  import opened Books
  import opened Inverse
  import opened Invariant
  import opened Expiry
  import opened Blocks
  import opened Replayed
  import opened Stripped

  // ---- The transactions of a block

  function BareTxs(b: Books, txs: seq<Tx>, h: nat, index: bool): Books {
    if txs == [] then b else Strip(ApplyTx(BareTxs(b, txs[..|txs| - 1], h, index), txs[|txs| - 1], h, index))
  }

  predicate BareFit(b: Books, txs: seq<Tx>, h: nat, index: bool) {
    txs == [] ||
    (&& BareFit(b, txs[..|txs| - 1], h, index)
     && FormatOk(txs[|txs| - 1])
     && TxOk(BareTxs(b, txs[..|txs| - 1], h, index), txs[|txs| - 1]))
  }

  lemma AuthorHasList(b: Books, tx: Tx, h: nat)
    requires Sound(b, h) && TxOk(b, tx)
    ensures AuthorKnown(b.forum, tx)
  {
    hide TopicsOk, QueueOk, ForumOk;
    if tx.body.TxReply? {
      assert AccountOk(b, tx.pubkey);
    }
  }

  /** A list without joined topics has as many as the one it was made from has accounts. */
  lemma SameAuthors(b: Books, tx: Tx)
    ensures AuthorKnown(Strip(b).forum, tx) == AuthorKnown(b.forum, tx)
  {
  }

  /** Whatever joined lists and members are, a transaction that is applied is applied without them, too. */
  lemma StripTx(b: Books, tx: Tx, h: nat, index: bool)
    requires Sound(Strip(b), h) && TxOk(b, tx) && FormatOk(tx)
    ensures TxOk(Strip(b), tx)
    ensures Strip(ApplyTx(Strip(b), tx, h, index)) == Strip(ApplyTx(b, tx, h, index))
    ensures Sound(Strip(ApplyTx(b, tx, h, index)), h)
  {
    hide Sound, TxOk, FormatOk, ApplyTx, Strip, AuthorKnown;
    StripOk(b, tx);
    AuthorHasList(Strip(b), tx, h);
    SameAuthors(b, tx);
    StripApply(b, tx, h, index);
    SoundKept(Strip(b), tx, h, index);
    StripSound(ApplyTx(Strip(b), tx, h, index), h);
  }

  lemma {:induction false} StripTxs(b: Books, txs: seq<Tx>, h: nat, index: bool)
    requires Sound(Strip(b), h) && TxsFit(b, txs, h, index)
    ensures BareFit(Strip(b), txs, h, index)
    ensures Strip(ApplyTxs(b, txs, h, index)) == BareTxs(Strip(b), txs, h, index)
    ensures Sound(BareTxs(Strip(b), txs, h, index), h)
    decreases |txs|
  {
    hide Sound, TxOk, FormatOk, ApplyTx, Strip;
    if txs != [] {
      var init, tx := txs[..|txs| - 1], txs[|txs| - 1];
      StripTxs(b, init, h, index);
      StripTx(ApplyTxs(b, init, h, index), tx, h, index);
    }
  }

  /** Each newcomer of `txs` has room for one more joined topic when its reply is applied. */
  predicate RoomFor(b: Books, txs: seq<Tx>, h: nat, index: bool) {
    txs == [] ||
    (&& RoomFor(b, txs[..|txs| - 1], h, index)
     && Room(ApplyTxs(b, txs[..|txs| - 1], h, index).forum, txs[|txs| - 1]))
  }

  /** So the transactions of a block fit exactly when they fit without joined lists and members, and there is room. */
  lemma {:induction false} StripTxsIff(b: Books, txs: seq<Tx>, h: nat, index: bool)
    requires Sound(Strip(b), h)
    ensures TxsFit(b, txs, h, index) <==> BareFit(Strip(b), txs, h, index) && RoomFor(b, txs, h, index)
    decreases |txs|
  {
    hide Sound, TxOk, FormatOk, ApplyTx, Strip, Room;
    if txs != [] {
      var init, tx := txs[..|txs| - 1], txs[|txs| - 1];
      StripTxsIff(b, init, h, index);
      if TxsFit(b, init, h, index) {
        StripTxs(b, init, h, index);
        StripOk(ApplyTxs(b, init, h, index), tx);
      }
    }
  }

  lemma {:induction false} BareIsStripped(b: Books, txs: seq<Tx>, h: nat, index: bool)
    requires Strip(b) == b
    ensures Strip(BareTxs(b, txs, h, index)) == BareTxs(b, txs, h, index)
    decreases |txs|
  {
    hide Strip, ApplyTx;
    if txs != [] {
      StripTwice(ApplyTx(BareTxs(b, txs[..|txs| - 1], h, index), txs[|txs| - 1], h, index));
    }
  }

  lemma StripLive(f: Forum, lo: int)
    requires LiveFrom(f, lo)
    ensures LiveFrom(StripForum(f), lo)
  {
  }

  /** The transactions of a block keep the books in order, enter each id exactly once and queue the topics they open. */
  lemma {:induction false} BareTxsSound(b: Books, txs: seq<Tx>, h: nat, index: bool, lo: int)
    requires Sound(b, h) && BareFit(b, txs, h, index) && LiveFrom(b.forum, lo) && h >= lo
    ensures Sound(BareTxs(b, txs, h, index), h)
    ensures LiveFrom(BareTxs(b, txs, h, index).forum, lo)
    ensures NoDup(Ids(txs)) && forall k :: k in Ids(txs) ==> k !in b.txMap
    ensures BareTxs(b, txs, h, index).txMap == b.txMap + AtHeight(Ids(txs), h)
    ensures BareTxs(b, txs, h, index).forum.queue == b.forum.queue + Opened(txs)
    ensures forall p :: p in b.reg.accounts ==> p in BareTxs(b, txs, h, index).reg.accounts
    decreases |txs|
  {
    hide Sound, TxOk, FormatOk, ApplyTx, LiveFrom, Strip, Ids, AtHeight, NoDup;
    if txs == [] {
      NoIds(b.txMap, h);
    } else {
      var init, tx := txs[..|txs| - 1], txs[|txs| - 1];
      BareTxsSound(b, init, h, index, lo);
      BareStep(BareTxs(b, init, h, index), tx, h, index, lo);
      IdsSplit(txs);
      AddIds(b.txMap, Ids(init), Hash(tx), h);
    }
  }

  lemma BareStep(c: Books, tx: Tx, h: nat, index: bool, lo: int)
    requires Sound(c, h) && TxOk(c, tx) && FormatOk(tx) && LiveFrom(c.forum, lo) && h >= lo
    ensures var d := Strip(ApplyTx(c, tx, h, index));
            && Sound(d, h) && LiveFrom(d.forum, lo)
            && Hash(tx) !in c.txMap && d.txMap == c.txMap[Hash(tx) := h]
            && d.forum.queue == c.forum.queue + (if tx.body.TxTopic? then [Hash(tx)] else [])
            && forall p :: p in c.reg.accounts ==> p in d.reg.accounts
  {
    hide Sound, TxOk, FormatOk, ApplyTx, LiveFrom, StripTopics, StripLists;
    TxSound(c, tx, h, index, lo);
    StripSound(ApplyTx(c, tx, h, index), h);
    StripLive(ApplyTx(c, tx, h, index).forum, lo);
  }

  /** One reverse step on books that agree, but for joined lists and members, with those the transaction left behind. */
  lemma BareUndo(s: Books, r: Books, tx: Tx, h: nat, index: bool)
    requires Strip(r) == r && Sound(r, h) && TxOk(r, tx) && FormatOk(tx)
    requires Strip(s) == Strip(ApplyTx(r, tx, h, index))
    ensures Strip(UndoTx(s, tx, index)) == r
  {
    hide TxOk, FormatOk, ApplyTx, UndoTx, Strip, TopicsOk, ColumnsOk, QueueOk, AuthorKnown;
    var d := ApplyTx(r, tx, h, index);
    SoundKept(r, tx, h, index);
    AuthorHasList(r, tx, h);
    AuthorStays(r, tx, h, index);
    SameAuthors(s, tx);
    SameAuthors(d, tx);
    StripUndo(s, tx, index);
    StripUndo(d, tx, index);
    NoMembers(r);
    UndoApply(r, tx, h, index);
  }

  lemma NoMembers(r: Books)
    requires Strip(r) == r
    ensures MembersOk(r.forum)
  {
    forall k | k in r.forum.topics ensures r.forum.topics[k].members == [] {
      assert r.forum.topics[k] == StripTopic(r.forum.topics[k]);
    }
  }

  lemma AuthorStays(r: Books, tx: Tx, h: nat, index: bool)
    requires AuthorKnown(r.forum, tx)
    ensures AuthorKnown(ApplyTx(r, tx, h, index).forum, tx)
  {
    hide AddReply, AddMember, ApplyMoney, ApplyRegistry;
  }

  /** The reverse loop gives back everything else, whatever joined lists and members are. */
  lemma {:induction false} BareUndoTxs(s: Books, r: Books, txs: seq<Tx>, h: nat, index: bool)
    requires Strip(r) == r && Sound(r, h) && BareFit(r, txs, h, index)
    requires Strip(s) == BareTxs(r, txs, h, index)
    ensures Strip(UndoTxs(s, txs, index)) == r
    decreases |txs|
  {
    hide Sound, TxOk, FormatOk, ApplyTx, UndoTx, Strip;
    if txs != [] {
      var init, tx := txs[..|txs| - 1], txs[|txs| - 1];
      var c := BareTxs(r, init, h, index);
      BareIsStripped(r, init, h, index);
      BareFitSound(r, init, h, index);
      BareUndo(s, c, tx, h, index);
      BareUndoTxs(UndoTx(s, tx, index), r, init, h, index);
    }
  }

  lemma {:induction false} BareFitSound(r: Books, txs: seq<Tx>, h: nat, index: bool)
    requires Sound(r, h) && BareFit(r, txs, h, index)
    ensures Sound(BareTxs(r, txs, h, index), h)
    decreases |txs|
  {
    hide Sound, TxOk, FormatOk, ApplyTx, Strip;
    if txs != [] {
      var init, tx := txs[..|txs| - 1], txs[|txs| - 1];
      BareFitSound(r, init, h, index);
      SoundKept(BareTxs(r, init, h, index), tx, h, index);
      StripSound(ApplyTx(BareTxs(r, init, h, index), tx, h, index), h);
    }
  }

  // ---- Blocks

  function BareBlockBooks(p: Books, b: Block): Books
    requires b.Block?
  {
    var x := BareTxs(p, b.txs, Height(b), true);
    x.(bal := PayMiner(x.bal, b.miner, |b.txs|))
  }

  function BareRewarded(p: Books, b: Block): bool
    requires b.Block?
  {
    Rewards(BareTxs(p, b.txs, Height(b), true).bal)
  }

  /** Every check of a block but the limit on joined topics. */
  predicate BareOk(s: State, b: Block) {
    && b.Block? && b.parent == s.cur
    && HeaderOk(b)
    && |b.txs| <= MAX_TXS
    && b.miner in s.books.reg.accounts
    && PrepareOk(s, Height(b))
    && BareFit(PrepareBooks(s.books, Height(b), LeavingIds(s.byHeight, Height(b))), b.txs, Height(b), true)
    && InTime(b.txs, Height(b))
  }

  function BareBlock(s: State, b: Block): State
    requires b.Block?
  {
    var p := Prepare(s, Height(b));
    State(BareBlockBooks(p.books, b), p.undoTopics, p.undoTxs, b,
          s.byHeight[Height(b) := b], s.inMain + {b}, s.rewarded[b := BareRewarded(p.books, b)])
  }

  function BareReplay(b: Block): Option<State> {
    if b.Genesis? then Some(INITIAL)
    else match BareReplay(b.parent)
      case None => None
      case Some(s) => if BareOk(s, b) then Some(BareBlock(s, b)) else None
  }

  lemma StripPrepareBooks(b: Books, h: nat, ids: seq<Key>)
    ensures PrepareBooks(Strip(b), h, ids) == Strip(PrepareBooks(b, h, ids))
  {
    hide Expire, ExpiredLog, StripForum, Worth;
    StripExpire(b.forum, h);
    StripWorth(ExpiredLog(b.forum, h));
  }

  lemma StripLogPut(m: map<nat, seq<Expired>>, h: nat, entry: seq<Expired>)
    ensures LogPut(StripLogs(m), h, StripLog(entry)) == StripLogs(LogPut(m, h, entry))
  {
    hide StripLog;
  }

  lemma StripPrepare(s: State, h: nat)
    ensures Prepare(StripState(s), h) == StripState(Prepare(s, h))
    ensures PrepareOk(StripState(s), h) == PrepareOk(s, h)
  {
    hide PrepareBooks, LogPut, ExpiredLog, ExpireOk, StripForum, StripLogs, LeavingIds, ForgetOk;
    StripPrepareBooks(s.books, h, LeavingIds(s.byHeight, h));
    StripExpire(s.books.forum, h);
    StripLogPut(s.undoTopics, h, ExpiredLog(s.books.forum, h));
  }

  lemma StripNext(s: State)
    ensures NextBooks(StripState(s)) == Strip(NextBooks(s))
  {
    hide PrepareBooks, Strip, StripLogs;
    StripPrepareBooks(s.books, Height(s.cur) + 1, LeavingIds(s.byHeight, Height(s.cur) + 1));
  }

  /** A block that a ledger accepts is accepted without joined lists and members, and the results agree. */
  lemma StripBlock(s: State, b: Block)
    requires SoundBoundary(StripState(s)) && BlockOk(s, b)
    ensures BareOk(StripState(s), b)
    ensures StripState(ApplyBlock(s, b)) == BareBlock(StripState(s), b)
    ensures BlockRewarded(NextBooks(s), b) == BareRewarded(NextBooks(StripState(s)), b)
  {
    hide SoundBoundary, PrepareBooks, TxsFit, BareFit, ApplyTxs, BareTxs, InTime, HeaderOk, PrepareOk, StripForum,
         StripLogs, LogTopics, LogTxs, PayMiner, Rewards, Sound, LeavingIds;
    var h := Height(b);
    StripPrepare(s, h);
    StripNext(s);
    SoundNextBooks(StripState(s));
    StripTxs(NextBooks(s), b.txs, h, true);
  }

  lemma StripBlockIff(s: State, b: Block)
    requires SoundBoundary(StripState(s)) && b.Block? && b.parent == s.cur
    ensures BlockOk(s, b) <==> BareOk(StripState(s), b) && RoomFor(NextBooks(s), b.txs, Height(b), true)
  {
    hide SoundBoundary, PrepareBooks, TxsFit, BareFit, InTime, HeaderOk, PrepareOk, StripForum, StripLogs, Sound,
         LeavingIds, RoomFor;
    StripPrepare(s, Height(b));
    StripNext(s);
    SoundNextBooks(StripState(s));
    StripTxsIff(NextBooks(s), b.txs, Height(b), true);
  }

  lemma SoundNextBooks(s: State)
    requires SoundBoundary(s)
    ensures Sound(NextBooks(s), Height(s.cur) + 1)
  {
    hide SoundBoundary, NextBooks, Sound;
    PrepareSound(s);
  }

  lemma BareBooks(p: Books, b: Block, h: nat)
    requires b.Block? && h == Height(b) && Strip(p) == p && Sound(p, h) && LiveFrom(p.forum, Oldest(h))
    requires BareFit(p, b.txs, h, true) && b.miner in p.reg.accounts
    ensures Strip(BareBlockBooks(p, b)) == BareBlockBooks(p, b)
    ensures Sound(BareBlockBooks(p, b), h)
    ensures LiveFrom(BareBlockBooks(p, b).forum, Oldest(h))
    ensures BareBlockBooks(p, b).forum.queue == p.forum.queue + Opened(b.txs)
    ensures BareBlockBooks(p, b).txMap == p.txMap + AtHeight(Ids(b.txs), h)
    ensures NoDup(Ids(b.txs)) && forall k :: k in Ids(b.txs) ==> k !in p.txMap
  {
    hide Sound, LiveFrom, PayMiner, BareFit, BareTxs, StripForum;
    var x := BareTxs(p, b.txs, h, true);
    BareIsStripped(p, b.txs, h, true);
    BareTxsSound(p, b.txs, h, true, Oldest(h));
    HasBalanceIn(x, h, b.miner);
    PayMinerKeys(x.bal, b.miner, |b.txs|);
    BalancesSound(x, h, PayMiner(x.bal, b.miner, |b.txs|));
  }

  lemma HasBalanceIn(x: Books, h: nat, p: Pubkey)
    requires Sound(x, h) && p in x.reg.accounts
    ensures p in x.bal
  {
    assert AccountOk(x, p);
  }

  /** A ledger as it stands at a block boundary, without joined lists and members. */
  ghost predicate BareBoundary(s: State) {
    SoundBoundary(s) && Strip(s.books) == s.books
  }

  lemma BareNext(s: State)
    requires BareBoundary(s)
    ensures Strip(NextBooks(s)) == NextBooks(s)
  {
    hide SoundBoundary, Strip, PrepareBooks, LeavingIds;
    StripPrepareBooks(s.books, Height(s.cur) + 1, LeavingIds(s.byHeight, Height(s.cur) + 1));
  }

  lemma BareKept(s: State, b: Block)
    requires BareBoundary(s) && BareOk(s, b)
    ensures BareBoundary(BareBlock(s, b))
  {
    hide Sound, LiveFrom, PrepareBooks, FreshIds, IndexOk, BareFit, InTime, HeaderOk, PrepareOk, IdMap, TopicIds,
         BareBlockBooks, BareRewarded, Strip, Ids, AtHeight, NoDup, LogTopics, LogTxs;
    var h := Height(b);
    PrepareSound(s);
    BareNext(s);
    BareBooks(NextBooks(s), b, h);
    IndexKept(s, b, BareBlock(s, b));
    FreshStep(b, h);
    IdMapStep(b, h);
  }

  lemma InitialIsBare()
    ensures BareBoundary(INITIAL) && StripState(INITIAL) == INITIAL
  {
    InitialBoundary();
    hide SoundBoundary, Linked;
    assert StripLists(INITIAL.books.forum.joined) == INITIAL.books.forum.joined;
    assert StripTopics(INITIAL.books.forum.topics) == INITIAL.books.forum.topics;
    assert StripLogs(INITIAL.undoTopics) == INITIAL.undoTopics;
  }

  lemma {:induction false} BareReplayed(b: Block)
    requires BareReplay(b).Some?
    ensures BareReplay(b).value.cur == b && BareBoundary(BareReplay(b).value)
  {
    hide BareBoundary, BareOk, BareBlock, INITIAL;
    if b.Genesis? {
      InitialIsBare();
      InitialAt();
    } else {
      BareReplayed(b.parent);
      BareKept(BareReplay(b.parent).value, b);
      BareCur(BareReplay(b.parent).value, b);
    }
  }

  lemma InitialAt()
    ensures INITIAL.cur == Genesis
  {
  }

  lemma BareCur(s: State, b: Block)
    requires b.Block?
    ensures BareBlock(s, b).cur == b
  {
  }

  /** What start rebuilds is, without joined lists and members, what the bare replay gives. */
  lemma {:induction false} ReplayIsBare(b: Block)
    requires Replay(b).Some?
    ensures BareReplay(b) == Some(StripState(Replay(b).value))
  {
    hide BlockOk, ApplyBlock, BareOk, BareBlock, INITIAL, StripState, BareBoundary;
    if b.Genesis? {
      InitialIsBare();
    } else {
      ReplayIsBare(b.parent);
      BareReplayed(b.parent);
      BareSound(BareReplay(b.parent).value);
      StripBlock(Replay(b.parent).value, b);
    }
  }

  lemma BareSound(s: State)
    requires BareBoundary(s)
    ensures SoundBoundary(s)
  {
  }
}
