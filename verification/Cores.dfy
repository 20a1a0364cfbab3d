/** The ledger but for joined lists and members: what no wrong joined list can touch. */
module Cores {
  import opened Chain
  import opened Books
  import opened Inverse
  import opened Invariant
  import opened Expiry
  import opened Sim
  import opened Blocks
  import opened Replayed
  import opened Reorg
  import opened UndoLogs
  import opened Stripped
  import opened Bare

  /** The topics that expired at block `c`, without their members. */
  ghost function BareLog(c: Block): seq<Expired> {
    if c.Block? && BareReplay(c.parent).Some? then ExpiredLog(BareReplay(c.parent).value.books.forum, Height(c)) else []
  }

  ghost function BareMark(c: Block): bool {
    c.Block? && BareReplay(c.parent).Some? && BareRewarded(NextBooks(BareReplay(c.parent).value), c)
  }

  /** But for joined lists and members the ledger is what the bare replay of its branch gives: registry, balances, id
      map, topics with their replies and balances, queue, own lists, both undo logs as far as retained, height index,
      marks. */
  ghost predicate Core(s: State, top: nat) {
    && BareReplay(s.cur).Some?
    && Strip(s.books) == BareReplay(s.cur).value.books
    && IndexOk(s)
    && RewardsOk(s, BareMark)
    && UndoOk(StripState(s), top, BareLog)
    && Height(s.cur) <= top
    && InReach(Height(s.cur), top)
  }

  // ---- A block is applied

  lemma StrippedBoundary(s: State)
    requires BareReplay(s.cur).Some? && Strip(s.books) == BareReplay(s.cur).value.books && IndexOk(s)
    ensures var r := BareReplay(s.cur).value;
            SoundBoundary(StripState(s)) && r.cur == s.cur && r.byHeight == s.byHeight && BareBoundary(r)
  {
    hide SoundBoundary, Strip, BareReplay, StripState, IndexOk;
    BareReplayed(s.cur);
    StripParts(s);
    var r := BareReplay(s.cur).value;
    BareIndex(r);
    SameIndex(s, r);
    SameBoundary(StripState(s), r);
  }

  lemma SameBoundary(s: State, r: State)
    requires SoundBoundary(r) && s.books == r.books && s.cur == r.cur
    requires s.byHeight == r.byHeight && s.inMain == r.inMain
    ensures SoundBoundary(s)
  {
    hide Sound, LiveFrom, IdMap, TopicIds, FreshIds;
  }

  lemma SameBareOk(s: State, r: State, b: Block)
    requires s.books == r.books && s.cur == r.cur && s.byHeight == r.byHeight
    ensures NextBooks(s) == NextBooks(r)
    ensures BareOk(s, b) == BareOk(r, b)
    ensures b.Block? && b.parent == s.cur ==> BareBlock(s, b).books == BareBlock(r, b).books
    ensures b.Block? && b.parent == s.cur ==>
              BareBlock(s, b).rewarded == s.rewarded[b := BareRewarded(NextBooks(r), b)]
  {
    hide PrepareBooks, BareFit, InTime, HeaderOk, ExpireOk, ForgetOk, BareBlockBooks, BareRewarded, LogTopics, LogTxs,
         LeavingIds;
  }

  lemma BareRest(s: State, b: Block)
    requires b.Block?
    ensures var t := BareBlock(s, b);
            && t.cur == b && t.byHeight == s.byHeight[Height(b) := b] && t.inMain == s.inMain + {b}
            && t.undoTopics == LogTopics(s.undoTopics, s.books.forum, Height(b))
            && t.undoTxs == LogTxs(s.undoTxs, LeavingIds(s.byHeight, Height(b)), Height(b))
  {
    hide BareBlockBooks, BareRewarded, PrepareBooks, ExpiredLog, LeavingIds, LogPut, Leaving;
  }

  lemma StripParts(s: State)
    ensures var t := StripState(s);
            && t.books == Strip(s.books) && t.undoTopics == StripLogs(s.undoTopics) && t.undoTxs == s.undoTxs
            && t.cur == s.cur && t.byHeight == s.byHeight && t.inMain == s.inMain && t.rewarded == s.rewarded
  {
  }

  /** A block that the ledger accepts, whatever its joined lists hold, leads from one core to the next. */
  lemma CoreApply(s: State, b: Block, top: nat)
    requires Core(s, top) && BlockOk(s, b)
    ensures Core(ApplyBlock(s, b), Max(top, Height(b)))
  {
    hide SoundBoundary, Strip, StripLogs, StripState, UndoOk, RewardsOk, IndexOk, BareReplay, BareOk, BareBlock,
         BlockOk, ApplyBlock, NextBooks, BareRewarded, BareBoundary, ExpiredLog;
    OnTop(s, b);
    var u, t := StripState(s), ApplyBlock(s, b);
    var r := BareReplay(s.cur).value;
    StrippedBoundary(s);
    StripParts(s);
    StripParts(t);
    StripBlock(s, b);
    SameBareOk(u, r, b);
    BareNextReplay(b);
    BareRest(u, b);
    SameIndexOk(s, u);
    ApplyLogs(u, b, StripState(t), top, BareLog);
    ApplyRewards(s, b, t, BareMark);
    IndexKept(s, b, t);
  }

  /** It accepts a block exactly when the replay does and each newcomer has room in its joined list. */
  lemma CoreAccepts(s: State, b: Block, top: nat)
    requires Core(s, top) && b.Block? && b.parent == s.cur
    ensures BlockOk(s, b) <==> BareReplay(b).Some? && RoomFor(NextBooks(s), b.txs, Height(b), true)
  {
    hide SoundBoundary, Strip, StripState, UndoOk, RewardsOk, IndexOk, BareReplay, BareOk, BareBlock, BlockOk,
         NextBooks, BareBoundary, RoomFor;
    StrippedBoundary(s);
    StripParts(s);
    StripBlockIff(s, b);
    SameBareOk(StripState(s), BareReplay(s.cur).value, b);
    BareNextReplay(b);
  }

  lemma SameIndexOk(s: State, t: State)
    requires IndexOk(s) && t.cur == s.cur && t.byHeight == s.byHeight && t.inMain == s.inMain
    ensures IndexOk(t)
  {
  }

  lemma BareNextReplay(b: Block)
    requires b.Block? && BareReplay(b.parent).Some?
    ensures BareReplay(b).Some? <==> BareOk(BareReplay(b.parent).value, b)
    ensures BareReplay(b).Some? ==> BareReplay(b).value == BareBlock(BareReplay(b.parent).value, b)
    ensures BareLog(b) == ExpiredLog(BareReplay(b.parent).value.books.forum, Height(b))
    ensures BareMark(b) == BareRewarded(NextBooks(BareReplay(b.parent).value), b)
  {
    hide BareOk, BareBlock, ExpiredLog, NextBooks, BareRewarded;
  }

  // ---- A block is taken off

  lemma BareLinked(r: State)
    requires BareBoundary(r)
    ensures Boundary(r)
  {
    hide SoundBoundary;
    NoMembers(r.books);
    NoneJoined(r.books);
  }

  lemma NoneJoined(b: Books)
    requires Strip(b) == b
    ensures JoinedOk(b.forum)
  {
    forall p | p in b.forum.joined ensures JoinedListOk(b.forum, p) {
      assert b.forum.joined[p] == StripLists(b.forum.joined)[p];
    }
  }

  lemma AlikeStripped(x: Books, y: Books)
    requires BooksAlike(x, y)
    ensures Strip(x) == Strip(y)
  {
    assert StripLists(x.forum.joined) == StripLists(y.forum.joined);
  }

  lemma StripUnprepare(x: Books, log: seq<Expired>, gone: Forgotten)
    ensures Strip(UnprepareBooks(x, log, gone)) == UnprepareBooks(Strip(x), StripLog(log), gone)
  {
    hide StripForum, StripLog, Restore, Worth, Remember;
    StripRestore(x.forum, log);
    StripWorth(log);
  }

  /** What expired and was forgotten comes back. */
  lemma BareUnprepare(r: State)
    requires BareBoundary(r) && Height(r.cur) + 1 >= TOPIC_LIFE_TIME + 2
    ensures UnprepareBooks(NextBooks(r), ExpiredLog(r.books.forum, Height(r.cur) + 1), LeavingAt(r)) == r.books
  {
    hide SoundBoundary, Boundary, Strip, UnprepareBooks, NextBooks, ExpiredLog, LeavingAt, BooksAlike;
    var log := ExpiredLog(r.books.forum, Height(r.cur) + 1);
    BareLinked(r);
    BareNext(r);
    AlikeSelf(NextBooks(r));
    UnprepareAlike(NextBooks(r), r);
    StripUnprepare(NextBooks(r), log, LeavingAt(r));
    StrippedLog(r.books.forum, Height(r.cur) + 1);
    StrippedForum(r);
    AlikeStripped(UnprepareBooks(NextBooks(r), log, LeavingAt(r)), r.books);
  }

  lemma StrippedForum(r: State)
    requires BareBoundary(r)
    ensures StripForum(r.books.forum) == r.books.forum
  {
  }

  lemma StrippedLog(f: Forum, h: nat)
    ensures StripForum(f) == f ==> StripLog(ExpiredLog(f, h)) == ExpiredLog(f, h)
  {
    hide ExpiredLog, StripForum, StripLog;
    StripExpire(f, h);
  }

  lemma AlikeSelf(b: Books)
    ensures BooksAlike(b, b)
  {
  }

  /** The books after the transactions of a block, seen from those after its miner was paid. */
  lemma UnpaidBooks(x: Books, r: State, b: Block) returns (y: Books)
    requires BareBoundary(r) && BareOk(r, b) && Strip(x) == BareBlockBooks(NextBooks(r), b)
    ensures y == x.(bal := UnpayMiner(x.bal, b.miner, |b.txs|, BareRewarded(NextBooks(r), b)))
    ensures Strip(y) == BareTxs(NextBooks(r), b.txs, Height(b), true)
  {
    hide SoundBoundary, Strip, NextBooks, BareFit, BareTxs, InTime, HeaderOk, PrepareOk, Sound, PayMiner, UnpayMiner,
         Rewards, LiveFrom, IdMap, TopicIds, FreshIds;
    var h := Height(b);
    var p := NextBooks(r);
    PrepareSound(r);
    BareNext(r);
    BareOkShape(r, b);
    var a := BareTxs(p, b.txs, h, true);
    BareTxsSound(p, b.txs, h, true, Oldest(h));
    BareIsStripped(p, b.txs, h, true);
    HasBalanceIn(a, h, b.miner);
    HasReserve(a, h);
    UnpayPay(a.bal, b.miner, |b.txs|);
    y := x.(bal := a.bal);
    StripBalances(x);
    OnlyBalances(x, y, a);
  }

  /** The miner's pay and the transactions of a block are taken back, whatever joined lists and members are. */
  lemma CoreUnblock(x: Books, r: State, b: Block)
    requires BareBoundary(r) && BareOk(r, b) && Strip(x) == BareBlockBooks(NextBooks(r), b)
    ensures Strip(UnblockBooks(x, b, BareRewarded(NextBooks(r), b))) == NextBooks(r)
  {
    hide SoundBoundary, Strip, NextBooks, BareFit, BareTxs, BareOk, Sound, UndoTxs, UnpayMiner, BareRewarded;
    BareOkShape(r, b);
    SoundNextBooks(r);
    BareNext(r);
    var y := UnpaidBooks(x, r, b);
    BareUndoTxs(y, NextBooks(r), b.txs, Height(b), true);
  }

  lemma BareOkShape(r: State, b: Block)
    requires BareOk(r, b)
    ensures b.Block? && b.parent == r.cur && Height(b) == Height(r.cur) + 1 && b.miner in r.books.reg.accounts
    ensures BareFit(NextBooks(r), b.txs, Height(b), true)
  {
    hide BareFit, PrepareBooks, HeaderOk, InTime, PrepareOk;
  }

  lemma StripBalances(x: Books)
    ensures Strip(x).bal == x.bal
  {
  }

  lemma OnlyBalances(x: Books, y: Books, a: Books)
    requires y == x.(bal := a.bal) && Strip(a) == a && Strip(x) == a.(bal := x.bal)
    ensures Strip(y) == a
  {
  }

  /** Taking a block off leaves, but for joined lists and members, what the bare replay gives for the parent. */
  lemma CoreUndo(s: State, top: nat)
    requires Core(s, top) && s.cur.Block? && InReach(Height(s.cur.parent), top)
    ensures CanUndo(s)
    ensures UndoBlock(s).cur == s.cur.parent
    ensures Core(UndoBlock(s), top)
  {
    hide Strip, StripLogs, StripState, UndoOk, RewardsOk, IndexOk, BareReplay, UndoBlock, BareMark, BareLog, Retained;
    CoreUndoBooks(s, top);
    CoreUndoLogs(s, top);
    UndoneLogs(s);
    UndoneIndex(s);
    IndexUndone(s, UndoBlock(s));
    RewardsUndone(s, UndoBlock(s), BareMark);
  }

  lemma CoreUndoBooks(s: State, top: nat)
    requires Core(s, top) && s.cur.Block? && InReach(Height(s.cur.parent), top)
    ensures CanUndo(s)
    ensures BareReplay(s.cur.parent).Some?
    ensures Strip(UndoBlock(s).books) == BareReplay(s.cur.parent).value.books
  {
    hide Strip, StripLogs, StripState, UndoOk, IndexOk, BareReplay, UndoBlock, BareMark, BareLog, UnblockBooks, LogAt,
         GoneAt, UnprepareBooks, BareBoundary, BareOk, BareBlock, BareBlockBooks, BareRewarded, NextBooks, ExpiredLog,
         LeavingAt, StripLog;
    var b := s.cur;
    BareParent(b);
    var r := BareReplay(b.parent).value;
    BareReplayed(b.parent);
    BareBooksAre(r, b);
    BareNextReplay(b);
    assert IsAncestor(b, s.cur);
    CoreUnblock(s.books, r, b);
    UndoneBooks(s);
    var x := UnblockBooks(s.books, b, BareMark(b));
    if Height(b) >= TOPIC_LIFE_TIME + 2 {
      BareIndex(r);
      StripParts(s);
      EntriesAt(StripState(s), r, top, BareLog);
      StripLogAt(s.undoTopics, UndoKey(Height(b)));
      StripUnprepare(x, LogAt(s.undoTopics, UndoKey(Height(b))), GoneAt(s.undoTxs, UndoKey(Height(b))));
      BareUnprepare(r);
    } else {
      EarlyBooks(r);
    }
  }

  lemma BareIndex(r: State)
    requires BareBoundary(r)
    ensures IndexOk(r)
  {
    hide Sound, LiveFrom, FreshIds, IdMap, TopicIds, IndexOk, Strip;
  }

  lemma StripLogAt(m: map<nat, seq<Expired>>, n: nat)
    ensures LogAt(StripLogs(m), n) == StripLog(LogAt(m, n))
    ensures n in StripLogs(m) <==> n in m
  {
    hide StripLog;
    assert StripLog([]) == [] by { NothingToStrip(); }
  }

  lemma NothingToStrip()
    ensures StripLog([]) == []
  {
  }

  lemma BareParent(b: Block)
    requires b.Block? && BareReplay(b).Some?
    ensures BareReplay(b.parent).Some? && BareOk(BareReplay(b.parent).value, b)
    ensures BareReplay(b).value == BareBlock(BareReplay(b.parent).value, b)
  {
    hide BareOk, BareBlock;
  }

  lemma BareBooksAre(r: State, b: Block)
    requires b.Block? && b.parent == r.cur
    ensures BareBlock(r, b).books == BareBlockBooks(NextBooks(r), b)
  {
    hide BareBlockBooks, PrepareBooks, BareRewarded;
  }

  lemma CoreUndoLogs(s: State, top: nat)
    requires Core(s, top) && s.cur.Block?
    ensures UndoOk(StripState(UndoBlock(s)), top, BareLog)
  {
    hide Strip, StripLogs, StripState, TopicLogOk, TxLogOk, IndexOk, RewardsOk, BareReplay, UndoBlock, BareLog;
    StripParts(s);
    StripParts(UndoBlock(s));
    UndoneLogs(s);
    UndoTopicLog(StripLogs(s.undoTopics), s.cur, top, BareLog);
    UndoTxLog(s.undoTxs, s.cur, top);
    if Height(s.cur) >= TOPIC_LIFE_TIME + 2 {
      StripLess(s.undoTopics, UndoKey(Height(s.cur)));
    }
  }

  lemma StripLess(m: map<nat, seq<Expired>>, n: nat)
    ensures StripLogs(m - {n}) == StripLogs(m) - {n}
  {
    hide StripLog;
  }

  // ---- What the first loop of rollback can reach

  lemma CoreKeys(s: State, top: nat)
    requires Core(s, top)
    ensures forall n: nat :: n in s.undoTopics <==> Retained(n, Height(s.cur), top)
  {
    hide Strip, StripLogs, IndexOk, RewardsOk, TxLogOk, TopicEntryOk, BareReplay, Retained, StripState;
    StripParts(s);
    forall n: nat ensures n in s.undoTopics <==> n in StripLogs(s.undoTopics) {
      StripLogAt(s.undoTopics, n);
    }
  }

  /** Rollback's first loop takes the current block off if and only if it is among the first TOPIC_LIFE_TIME + 1
      blocks, or at most TOPIC_LIFE_TIME blocks have been prepared above its parent. */
  lemma CanUndoIff(s: State, top: nat)
    requires Core(s, top) && s.cur.Block?
    ensures CanUndo(s) <==> Height(s.cur) <= TOPIC_LIFE_TIME + 1 || top <= Height(s.cur.parent) + TOPIC_LIFE_TIME
  {
    CoreKeys(s, top);
    hide UndoOk, IndexOk, RewardsOk, BareReplay, StripState, Strip;
    if Height(s.cur) > TOPIC_LIFE_TIME + 1 {
      assert UndoKey(Height(s.cur)) in s.undoTopics <==> Retained(UndoKey(Height(s.cur)), Height(s.cur), top);
    }
  }

  lemma RetainsIff(s: State, top: nat, n: nat)
    requires Core(s, top) && n <= Height(s.cur)
    ensures Retains(s, n) <==> InReach(n, top)
  {
    CoreKeys(s, top);
    hide UndoOk, IndexOk, RewardsOk, BareReplay, StripState, Strip;
    if Retains(s, n) {
      var lowest := Max(n + 1, TOPIC_LIFE_TIME + 2);
      if lowest <= Height(s.cur) {
        assert UndoKey(lowest) in s.undoTopics;
      }
    }
  }

  // ---- mine_tx

  /** What mine_tx applied comes off again, whatever joined lists and members are. */
  lemma BareTried(p: Books, txs: seq<Tx>, h: nat)
    requires Sound(Strip(p), h) && TxsFit(p, txs, h, false)
    ensures BareFit(Strip(p), txs, h, false) && Strip(Strip(p)) == Strip(p)
    ensures Strip(ApplyTxs(p, txs, h, false)) == BareTxs(Strip(p), txs, h, false)
    ensures Strip(UndoTxs(ApplyTxs(p, txs, h, false), txs, false)) == Strip(p)
  {
    hide Sound, TxsFit, ApplyTxs, BareFit, BareTxs, UndoTxs, Strip;
    StripTwice(p);
    StripTxs(p, txs, h, false);
    BareUndoTxs(ApplyTxs(p, txs, h, false), Strip(p), txs, h, false);
  }

  lemma TriedParts(s: State, txs: seq<Tx>)
    ensures var t, h := Tried(s, txs), Height(s.cur) + 1;
            && t.cur == s.cur && t.byHeight == s.byHeight && t.inMain == s.inMain && t.rewarded == s.rewarded
            && (h < TOPIC_LIFE_TIME + 2 ==> t.undoTopics == s.undoTopics && t.undoTxs == s.undoTxs)
            && (h >= TOPIC_LIFE_TIME + 2 ==>
                  && t.undoTopics == LogTopics(s.undoTopics, s.books.forum, h) - {UndoKey(h)}
                  && t.undoTxs == LogTxs(s.undoTxs, LeavingIds(s.byHeight, h), h) - {UndoKey(h)})
            && var x := UndoTxs(ApplyTxs(NextBooks(s), txs, h, false), txs, false);
               t.books == if h < TOPIC_LIFE_TIME + 2 then x
                          else UnprepareBooks(x, ExpiredLog(s.books.forum, h), Leaving(LeavingIds(s.byHeight, h), h))
  {
    hide PrepareBooks, UnprepareBooks, ExpiredLog, LeavingIds, Reversed, ApplyTxs, UndoTxs;
  }

  lemma CoreTriedBooks(s: State, txs: seq<Tx>, top: nat)
    requires Core(s, top) && TxsFit(NextBooks(s), txs, Height(s.cur) + 1, false)
    ensures Strip(Tried(s, txs).books) == BareReplay(s.cur).value.books
  {
    hide SoundBoundary, Strip, StripLogs, StripState, UndoOk, RewardsOk, IndexOk, BareReplay, NextBooks, BareBoundary,
         ExpiredLog, TxsFit, ApplyTxs, UndoTxs, UnprepareBooks, Tried, LeavingIds, Leaving, LeavingAt, StripForum,
         StripLog, StripTopics, Sound, Height, LogPut, BareLog, BareMark;
    var h := Height(s.cur) + 1;
    var r := BareReplay(s.cur).value;
    StrippedBoundary(s);
    StripParts(s);
    StripNext(s);
    SameNext(StripState(s), r);
    SoundNextBooks(StripState(s));
    BareTried(NextBooks(s), txs, h);
    TriedParts(s, txs);
    var x := UndoTxs(ApplyTxs(NextBooks(s), txs, h, false), txs, false);
    if h >= TOPIC_LIFE_TIME + 2 {
      StripUnprepare(x, ExpiredLog(s.books.forum, h), Leaving(LeavingIds(s.byHeight, h), h));
      StripExpire(s.books.forum, h);
      StripForums(s.books);
      LeavingSame(s, r);
      BareUnprepare(r);
    } else {
      EarlyBooks(r);
    }
  }

  lemma StripForums(b: Books)
    ensures Strip(b).forum == StripForum(b.forum)
  {
  }

  lemma SameNext(s: State, r: State)
    requires s.books == r.books && s.cur == r.cur && s.byHeight == r.byHeight
    ensures NextBooks(s) == NextBooks(r)
  {
  }

  lemma LeavingSame(s: State, r: State)
    requires s.cur == r.cur && s.byHeight == r.byHeight && Height(s.cur) + 1 >= TOPIC_LIFE_TIME + 2
    ensures Leaving(LeavingIds(s.byHeight, Height(s.cur) + 1), Height(s.cur) + 1) == LeavingAt(r)
  {
  }

  /** Whatever mine_tx tries, it leaves the core. */
  lemma CoreTried(s: State, txs: seq<Tx>, top: nat)
    requires Core(s, top) && TxsFit(NextBooks(s), txs, Height(s.cur) + 1, false)
    ensures Tried(s, txs).cur == s.cur
    ensures Core(Tried(s, txs), Max(top, Height(s.cur) + 1))
  {
    hide Strip, StripLogs, StripState, UndoOk, IndexOk, BareReplay, BareBoundary, ExpiredLog, TxsFit, ApplyTxs, UndoTxs,
         UnprepareBooks, Tried, LeavingIds, Leaving, LogTopics, LogTxs, NextBooks, SoundBoundary;
    CoreTriedBooks(s, txs, top);
    TriedParts(s, txs);
    SameIndexOk(s, Tried(s, txs));
    CoreTriedLogs(s, txs, top);
  }

  /** The undo logs that mine_tx leaves, seen without members. */
  lemma StripTriedLogs(s: State, txs: seq<Tx>)
    ensures var u, t, h := StripState(s), StripState(Tried(s, txs)), Height(s.cur) + 1;
            && t.cur == u.cur
            && if h < TOPIC_LIFE_TIME + 2 then t.undoTopics == u.undoTopics && t.undoTxs == u.undoTxs
               else && t.undoTopics == LogTopics(u.undoTopics, u.books.forum, h) - {UndoKey(h)}
                    && t.undoTxs == LogTxs(u.undoTxs, LeavingIds(u.byHeight, h), h) - {UndoKey(h)}
  {
    hide Strip, StripLogs, StripState, ExpiredLog, Tried, LeavingIds, Leaving, LogPut, StripForum, Height, NextBooks,
         UnprepareBooks;
    var h := Height(s.cur) + 1;
    TriedParts(s, txs);
    StripParts(s);
    StripParts(Tried(s, txs));
    StripForums(s.books);
    StripExpire(s.books.forum, h);
    StripLogPut(s.undoTopics, h, ExpiredLog(s.books.forum, h));
    if h >= TOPIC_LIFE_TIME + 2 {
      StripLess(LogTopics(s.undoTopics, s.books.forum, h), UndoKey(h));
    }
  }

  lemma CoreTriedLogs(s: State, txs: seq<Tx>, top: nat)
    requires Core(s, top)
    ensures UndoOk(StripState(Tried(s, txs)), Max(top, Height(s.cur) + 1), BareLog)
  {
    hide Strip, StripLogs, StripState, UndoOk, IndexOk, RewardsOk, BareReplay, ExpiredLog, Tried, LeavingIds, Leaving,
         LogTopics, LogTxs, BareLog, StripForum, Retained;
    var u := StripState(s);
    StripParts(s);
    StripTriedLogs(s, txs);
    SameIndexOk(s, u);
    forall b: Block | b.Block? && b.parent == s.cur ensures ExpiredLog(u.books.forum, Height(b)) == BareLog(b) {
      BareNextReplay(b);
    }
    PrunedLogs(u, StripState(Tried(s, txs)), top, BareLog);
  }
}
