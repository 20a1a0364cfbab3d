/** The ledger is the one start would rebuild: the invariant of every run. */
module Fidelity {
  import opened Lists
  import opened Chain
  import opened Books
  import opened Inverse
  import opened Invariant
  import opened Expiry
  import opened Sim
  import opened Blocks
  import opened Replayed
  import opened Reorg
  import opened UndoLogs

  /** The topics that expired at block `c`, as `c`'s undo entry must hold them. */
  ghost function LogOf(c: Block): seq<Expired> {
    if c.Block? && Replay(c.parent).Some? then ExpiredLog(Replay(c.parent).value.books.forum, Height(c)) else []
  }

  ghost function RewardOf(c: Block): bool {
    c.Block? && Replay(c.parent).Some? && BlockRewarded(NextBooks(Replay(c.parent).value), c)
  }

  /** The ledger is what start rebuilds for its current branch, except that joined lists may hold anything: books, both
      undo logs as far as retained, height index, main-chain marks, reward marks. `top` is the highest block ever
      prepared. */
  ghost predicate Tracks(s: State, top: nat) {
    && Replay(s.cur).Some?
    && BooksAlike(s.books, Replay(s.cur).value.books)
    && IndexOk(s)
    && RewardsOk(s, RewardOf)
    && UndoOk(s, top, LogOf)
    && Height(s.cur) <= top
    && InReach(Height(s.cur), top)
  }

  /** The same, and the joined lists hold the same topics. */
  ghost predicate Faithful(s: State, top: nat) {
    Tracks(s, top) && JoinedSame(s.books.forum, Replay(s.cur).value.books.forum)
  }

  lemma FaithfulParts(s: State, top: nat)
    ensures Faithful(s, top) <==> Tracks(s, top) && BooksSim(s.books, Replay(s.cur).value.books)
  {
    hide BooksAlike, JoinedSame, IndexOk, RewardsOk, UndoOk;
  }

  // ---- A block is applied

  /** Expiry and forgetting work alike on both sides. */
  lemma SimNext(s: State, r: State)
    requires SoundBoundary(r) && r.cur == s.cur && IndexOk(s) && BooksSim(s.books, r.books)
    ensures BooksSim(NextBooks(s), NextBooks(r)) && Sound(NextBooks(r), Height(s.cur) + 1)
    ensures PrepareOk(s, Height(s.cur) + 1) && PrepareOk(r, Height(s.cur) + 1)
    ensures s.books.reg == r.books.reg
  {
    hide SoundBoundary, Sound, ForumAlike, JoinedSame, PrepareBooks, ExpireOk, IndexOk, LiveFrom, FreshIds, LeavingIds,
         PrepareOk, IdMap, TopicIds, ExpiredLog;
    PrepareSound(r);
    SameHeights(s, r);
    SimPrepare(s.books, r.books, Height(s.cur) + 1, LeavingIds(r.byHeight, Height(s.cur) + 1));
    SamePrepareOk(s, r, Height(s.cur) + 1);
  }

  lemma SimBlock(p: Books, q: Books, b: Block)
    requires b.Block? && BooksSim(p, q) && Sound(q, Height(b))
    ensures TxsFit(p, b.txs, Height(b), true) == TxsFit(q, b.txs, Height(b), true)
    ensures TxsFit(q, b.txs, Height(b), true) ==>
              BooksSim(BlockBooks(p, b), BlockBooks(q, b)) && BlockRewarded(p, b) == BlockRewarded(q, b)
  {
    hide Sound, ForumAlike, JoinedSame, TxsFit, ApplyTxs, PayMiner, Rewards;
    SimTxs(p, q, b.txs, Height(b), true);
  }

  lemma ApplyFaithfulBooks(s: State, r: State, b: Block)
    requires SoundBoundary(r) && r.cur == s.cur && IndexOk(s)
    requires BooksSim(s.books, r.books)
    requires b.Block? && b.parent == s.cur
    ensures BlockOk(s, b) <==> BlockOk(r, b)
    ensures BlockOk(r, b) ==> BooksSim(ApplyBlock(s, b).books, ApplyBlock(r, b).books)
    ensures BlockOk(r, b) ==> BlockRewarded(NextBooks(s), b) == BlockRewarded(NextBooks(r), b)
  {
    hide SoundBoundary, Sound, BooksSim, NextBooks, TxsFit, InTime, HeaderOk, BlockBooks, BlockRewarded, PrepareOk,
         IndexOk, BlockOk, ApplyBlock;
    SimNext(s, r);
    SimBlock(NextBooks(s), NextBooks(r), b);
    BlockOkWhen(s, b);
    BlockOkWhen(r, b);
    AppliedBooksAre(s, b);
    AppliedBooksAre(r, b);
  }

  lemma ReplayNext(b: Block)
    requires b.Block? && Replay(b.parent).Some?
    ensures Replay(b).Some? <==> BlockOk(Replay(b.parent).value, b)
    ensures Replay(b).Some? ==> Replay(b).value == ApplyBlock(Replay(b.parent).value, b)
  {
  }

  /** Accepting `b`, what expires at it and whether it is rewarded are as in the replay. */
  lemma ApplyAsReplay(s: State, b: Block)
    requires Replay(s.cur).Some? && BooksSim(s.books, Replay(s.cur).value.books) && IndexOk(s)
    requires b.Block? && b.parent == s.cur
    ensures BlockOk(s, b) <==> Replay(b).Some?
    ensures BlockOk(s, b) ==> BooksSim(ApplyBlock(s, b).books, Replay(b).value.books)
    ensures BlockOk(s, b) ==> BlockRewarded(NextBooks(s), b) == RewardOf(b)
    ensures ExpiredLog(s.books.forum, Height(b)) == LogOf(b)
  {
    ReplayNext(b);
    hide SoundBoundary, Linked, BlockOk, IndexOk, BlockRewarded, ApplyBlock, Replay, ExpiredLog, PrepareBooks, BooksSim;
    ReplayBoundary(s.cur);
    var r := Replay(s.cur).value;
    ApplyFaithfulBooks(s, r, b);
    SimPrepare(s.books, r.books, Height(b), []);
  }

  lemma AppliedRest(s: State, b: Block)
    requires b.Block? && b.parent == s.cur
    ensures var t := ApplyBlock(s, b);
            && t.cur == b && t.byHeight == s.byHeight[Height(b) := b] && t.inMain == s.inMain + {b}
            && t.rewarded == s.rewarded[b := BlockRewarded(NextBooks(s), b)]
            && t.undoTopics == LogPut(s.undoTopics, Height(b), ExpiredLog(s.books.forum, Height(b)))
            && t.undoTxs == LogPut(s.undoTxs, Height(b), Leaving(LeavingIds(s.byHeight, Height(b)), Height(b)))
  {
    hide BlockBooks, BlockRewarded, PrepareBooks, ExpiredLog, LeavingIds, LogPut, Leaving;
  }

  /** A block is accepted exactly when start accepts it, and the ledger follows the replay. */
  lemma ApplyFaithful(s: State, b: Block, top: nat)
    requires Faithful(s, top) && b.Block? && b.parent == s.cur
    ensures BlockOk(s, b) <==> Replay(b).Some?
    ensures BlockOk(s, b) ==> Faithful(ApplyBlock(s, b), Max(top, Height(b)))
  {
    AppliedCur(s, b);
    hide Boundary, BlockOk, UndoOk, RewardsOk, IndexOk, BlockRewarded, ApplyBlock, Replay, LogOf, RewardOf, NextBooks,
         ExpiredLog, BooksAlike, JoinedSame;
    ApplyAsReplay(s, b);
    if BlockOk(s, b) {
      AppliedRest(s, b);
      ApplyLogs(s, b, ApplyBlock(s, b), top, LogOf);
      ApplyRewards(s, b, ApplyBlock(s, b), RewardOf);
      IndexKept(s, b, ApplyBlock(s, b));
    }
  }

  // ---- A block is taken off

  lemma ReplayStep(b: Block)
    requires b.Block? && Replay(b).Some?
    ensures Replay(b.parent).Some? && BlockOk(Replay(b.parent).value, b)
    ensures Replay(b).value == ApplyBlock(Replay(b.parent).value, b)
  {
  }

  lemma AppliedAlike(s: State, r: State)
    requires s.cur.Block? && Replay(s.cur).Some? && Replay(s.cur).value == ApplyBlock(r, s.cur)
    requires r.cur == s.cur.parent
    requires BooksAlike(s.books, Replay(s.cur).value.books)
    ensures BooksAlike(s.books, BlockBooks(NextBooks(r), s.cur))
  {
    hide BooksAlike, BlockBooks, NextBooks, ApplyBlock, Replay;
    AppliedBooksAre(r, s.cur);
  }

  lemma EntriesRead(s: State, r: State, top: nat)
    requires s.cur.Block? && Height(s.cur) >= TOPIC_LIFE_TIME + 2 && UndoOk(s, top, LogOf)
    requires InReach(Height(s.cur.parent), top)
    requires Replay(s.cur.parent) == Some(r) && r.cur == s.cur.parent && Boundary(r)
    ensures UndoKey(Height(s.cur)) in s.undoTopics
    ensures LogAt(s.undoTopics, UndoKey(Height(s.cur))) == ExpiredLog(r.books.forum, Height(s.cur))
    ensures GoneAt(s.undoTxs, UndoKey(Height(s.cur))) == LeavingAt(r)
  {
    hide Sound, Linked, LiveFrom, FreshIds, IdMap, TopicIds, ExpiredLog, UndoOk, IndexOk, Replay, LeavingAt, LogAt,
         GoneAt;
    EntriesAt(s, r, top, LogOf);
  }

  /** The topics that the first replies of `p` in block `c` join, in order. */
  ghost function BlockJoins(c: Block, p: Pubkey): seq<Key> {
    if c.Block? && Replay(c.parent).Some?
    then JoinsOf(NextBooks(Replay(c.parent).value), c.txs, Height(c), true, p) else []
  }

  /** What undoing block `c` pushes to the front of the joined list of `p`. */
  ghost function BlockPushed(c: Block, p: Pubkey): seq<Key> {
    if Height(c) < TOPIC_LIFE_TIME + 2 then [] else Pushed(LogOf(c), p)
  }

  /** The transactions and the miner's pay of the current block are taken back. */
  lemma UnblockTracks(s: State, top: nat, r: State)
    requires Tracks(s, top) && s.cur.Block? && Replay(s.cur.parent) == Some(r)
    ensures r.cur == s.cur.parent && Boundary(r)
    ensures s.cur in s.rewarded && s.rewarded[s.cur] == RewardOf(s.cur)
    ensures BooksAlike(UnblockBooks(s.books, s.cur, RewardOf(s.cur)), NextBooks(r))
    ensures forall p :: p in NextBooks(r).forum.joined ==>
              && p in s.books.forum.joined
              && UnblockBooks(s.books, s.cur, RewardOf(s.cur)).forum.joined[p]
                 == DropEnd(s.books.forum.joined[p], |BlockJoins(s.cur, p)|)
  {
    hide Boundary, BooksAlike, TopicLogOk, TxLogOk, IndexOk, BlockOk, UnblockBooks, BlockBooks, BlockRewarded,
         PrepareBooks, JoinsOf, ApplyBlock, DropEnd;
    ReplayStep(s.cur);
    ReplayBoundary(s.cur.parent);
    assert IsAncestor(s.cur, s.cur);
    hide Replay;
    AppliedAlike(s, r);
    UndoBooks(s.books, r, s.cur);
  }

  /** The books after a block is taken off. */
  lemma UndoTracksBooks(s: State, top: nat)
    requires Tracks(s, top) && s.cur.Block? && InReach(Height(s.cur.parent), top)
    ensures CanUndo(s)
    ensures Replay(s.cur.parent).Some?
    ensures BooksAlike(UndoBlock(s).books, Replay(s.cur.parent).value.books)
    ensures forall p :: p in Replay(s.cur.parent).value.books.forum.joined ==>
              && p in s.books.forum.joined && p in UndoBlock(s).books.forum.joined
              && UndoBlock(s).books.forum.joined[p]
                 == BlockPushed(s.cur, p) + DropEnd(s.books.forum.joined[p], |BlockJoins(s.cur, p)|)
  {
    hide Boundary, BooksAlike, TopicLogOk, TxLogOk, IndexOk, RewardsOk, BlockOk, UnblockBooks, UnprepareBooks,
         BlockRewarded, NextBooks, UndoBlock, BlockJoins, DropEnd, Replay, Pushed, ExpiredLog, RewardOf, ApplyBlock,
         LogOf, LogAt, GoneAt, LeavingAt;
    ReplayStep(s.cur);
    var b := s.cur;
    var r := Replay(b.parent).value;
    UnblockTracks(s, top, r);
    UndoneBooks(s);
    PreparedKeys(r);
    var x := UnblockBooks(s.books, b, RewardOf(b));
    if Height(b) >= TOPIC_LIFE_TIME + 2 {
      EntriesRead(s, r, top);
      RestoredLists(x, r, b);
    } else {
      EarlyBooks(r);
      AlikeKeys(x, r.books);
    }
  }

  /** What expired and was forgotten at block `b` comes back. */
  lemma RestoredLists(x: Books, r: State, b: Block)
    requires b.Block? && Replay(b.parent) == Some(r) && r.cur == b.parent && Boundary(r)
    requires Height(b) >= TOPIC_LIFE_TIME + 2 && BooksAlike(x, NextBooks(r))
    ensures var y := UnprepareBooks(x, ExpiredLog(r.books.forum, Height(b)), LeavingAt(r));
            && BooksAlike(y, r.books)
            && forall p :: p in r.books.forum.joined ==>
                 && p in x.forum.joined && p in y.forum.joined
                 && y.forum.joined[p] == BlockPushed(b, p) + x.forum.joined[p]
  {
    hide Boundary, BooksAlike, UnprepareBooks, NextBooks, Replay, Pushed, ExpiredLog, LeavingAt;
    var log := ExpiredLog(r.books.forum, Height(b));
    var y := UnprepareBooks(x, log, LeavingAt(r));
    UnprepareAlike(x, r);
    PreparedKeys(r);
    AlikeKeys(x, NextBooks(r));
    AlikeKeys(y, r.books);
    RestoredForum(x, log, LeavingAt(r));
    forall p | p in r.books.forum.joined ensures y.forum.joined[p] == BlockPushed(b, p) + x.forum.joined[p] {
      RestoredList(x.forum, log, p);
    }
  }

  lemma PreparedKeys(r: State)
    ensures forall p :: p in NextBooks(r).forum.joined <==> p in r.books.forum.joined
  {
    PreparedForum(r);
    hide PrepareBooks, Expire;
    ExpireKeys(r.books.forum, Height(r.cur) + 1);
  }

  lemma {:induction false} ExpireKeys(f: Forum, h: nat)
    ensures forall p :: p in Expire(f, h).joined <==> p in f.joined
    decreases |f.queue|
  {
    hide EraseFirst;
    if FrontIsOld(f, h) {
      ExpireKeys(ExpireFront(f), h);
    }
  }

  /** Taking a block off leaves the ledger start rebuilds for the parent, whatever the joined lists hold; of those, the
      first replies of the block take an element each off the end, and what comes back is pushed to the front. */
  lemma UndoTracks(s: State, top: nat)
    requires Tracks(s, top) && s.cur.Block? && InReach(Height(s.cur.parent), top)
    ensures CanUndo(s)
    ensures UndoBlock(s).cur == s.cur.parent
    ensures Tracks(UndoBlock(s), top)
    ensures forall p :: p in Replay(s.cur.parent).value.books.forum.joined ==>
              && p in s.books.forum.joined && p in UndoBlock(s).books.forum.joined
              && UndoBlock(s).books.forum.joined[p]
                 == BlockPushed(s.cur, p) + DropEnd(s.books.forum.joined[p], |BlockJoins(s.cur, p)|)
  {
    UndoTracksBooks(s, top);
    hide BooksAlike, TopicLogOk, TxLogOk, IndexOk, RewardsOk, UndoBlock, BlockPushed, BlockJoins, DropEnd, Replay;
    UndoTopicLog(s.undoTopics, s.cur, top, LogOf);
    UndoTxLog(s.undoTxs, s.cur, top);
    UndoneLogs(s);
    UndoneIndex(s);
    IndexUndone(s, UndoBlock(s));
    RewardsUndone(s, UndoBlock(s), RewardOf);
  }
}
