/** The undo logs, the height index and the marks of a ledger, against what a replay says they must hold. */
module UndoLogs {
  import opened Chain
  import opened Books
  import opened Invariant
  import opened Expiry
  import opened Blocks
  import opened Replayed

  /** Which undo entries are retained at height `h` when `top` is the highest block ever prepared. */
  predicate Retained(n: nat, h: nat, top: nat) {
    1 <= n && n + TOPIC_LIFE_TIME + 1 <= h && top <= n + 2 * TOPIC_LIFE_TIME
  }

  /** m_rollback_topics: one entry per retained height, holding what expired when that block left the window. */
  ghost predicate TopicLogOk(m: map<nat, seq<Expired>>, cur: Block, top: nat, logs: Block -> seq<Expired>) {
    && (forall n: nat :: n in m ==> Retained(n, Height(cur), top))
    && (forall n: nat :: Retained(n, Height(cur), top) ==> n in m && TopicEntryOk(m[n], cur, n, logs))
  }

  ghost predicate TopicEntryOk(log: seq<Expired>, cur: Block, n: nat, logs: Block -> seq<Expired>) {
    n + TOPIC_LIFE_TIME + 1 <= Height(cur) && log == logs(AncestorAt(cur, n + TOPIC_LIFE_TIME + 1))
  }

  /** m_rollback_txs: for the same heights, the ids of the block of that height. */
  ghost predicate TxLogOk(m: map<nat, Forgotten>, cur: Block, top: nat) {
    && (forall n: nat :: n in m ==> Retained(n, Height(cur), top))
    && (forall n: nat :: Retained(n, Height(cur), top) ==> n in m && TxEntryOk(m[n], cur, n))
  }

  ghost predicate TxEntryOk(gone: Forgotten, cur: Block, n: nat) {
    n <= Height(cur) && gone == Forgotten(n, Reversed(Ids(Txs(AncestorAt(cur, n)))))
  }

  ghost predicate UndoOk(s: State, top: nat, logs: Block -> seq<Expired>) {
    TopicLogOk(s.undoTopics, s.cur, top, logs) && TxLogOk(s.undoTxs, s.cur, top)
  }

  ghost predicate RewardsOk(s: State, marks: Block -> bool) {
    forall a: Block :: a.Block? && IsAncestor(a, s.cur) ==> a in s.rewarded && s.rewarded[a] == marks(a)
  }

  /** Blocks below this height may lie outside what the retained undo entries can take back. */
  predicate InReach(h: nat, top: nat) {
    top <= h + TOPIC_LIFE_TIME || top <= 2 * TOPIC_LIFE_TIME + 1
  }

  /** The undo entries that rollback reads on its way down to height `n` are retained. */
  predicate Retains(s: State, n: nat) {
    forall h: nat :: n < h <= Height(s.cur) && h >= TOPIC_LIFE_TIME + 2 ==> UndoKey(h) in s.undoTopics
  }

  lemma SameIndex(s: State, r: State)
    requires IndexOk(s) && IndexOk(r) && s.cur == r.cur
    ensures s.byHeight == r.byHeight && s.inMain == r.inMain
  {
  }

  function Max(a: nat, b: nat): nat {
    if a >= b then a else b
  }

  lemma SameHeights(s: State, r: State)
    requires IndexOk(s) && SoundBoundary(r) && r.cur == s.cur
    ensures s.byHeight == r.byHeight
  {
    hide Sound, LiveFrom, FreshIds, IdMap, TopicIds;
    SameIndex(s, r);
  }

  lemma SamePrepareOk(s: State, r: State, h: nat)
    requires s.byHeight == r.byHeight && s.books.txMap == r.books.txMap
    requires ExpireOk(s.books.forum, h) == ExpireOk(r.books.forum, h)
    ensures PrepareOk(s, h) == PrepareOk(r, h)
  {
    hide ExpireOk, LeavingIds, ForgetOk;
  }

  lemma AppliedBooksAre(s: State, b: Block)
    requires b.Block? && b.parent == s.cur
    ensures ApplyBlock(s, b).books == BlockBooks(NextBooks(s), b)
  {
    hide BlockBooks, PrepareBooks;
  }

  /** Entries below a block read the same from its parent. */
  lemma EntriesOfParent(b: Block, n: nat, log: seq<Expired>, gone: Forgotten, logs: Block -> seq<Expired>)
    requires b.Block? && n + TOPIC_LIFE_TIME + 1 < Height(b)
    ensures TopicEntryOk(log, b, n, logs) <==> TopicEntryOk(log, b.parent, n, logs)
    ensures TxEntryOk(gone, b, n) <==> TxEntryOk(gone, b.parent, n)
  {
    hide Ids, Txs, Reversed;
  }

  lemma NewTopicEntry(f: Forum, b: Block, logs: Block -> seq<Expired>)
    requires b.Block? && Height(b) >= TOPIC_LIFE_TIME + 2 && ExpiredLog(f, Height(b)) == logs(b)
    ensures TopicEntryOk(ExpiredLog(f, Height(b)), b, UndoKey(Height(b)), logs)
  {
    hide ExpiredLog;
  }

  /** Which entries a log holds after block `h` has pruned it and added its own. */
  lemma LogPutKeys<T>(m: map<nat, T>, h: nat, entry: T, top: nat)
    requires h >= 1 && h - 1 <= top && InReach(h - 1, top)
    requires forall n: nat :: n in m <==> Retained(n, h - 1, top)
    ensures forall n: nat :: n in LogPut(m, h, entry) <==> Retained(n, h, Max(top, h))
    ensures forall n: nat :: Retained(n, h, Max(top, h)) && n + TOPIC_LIFE_TIME + 1 < h ==>
                               n in m && n in LogPut(m, h, entry) && LogPut(m, h, entry)[n] == m[n]
    ensures h >= TOPIC_LIFE_TIME + 2 ==> UndoKey(h) in LogPut(m, h, entry) && LogPut(m, h, entry)[UndoKey(h)] == entry
  {
  }

  lemma ApplyTopicLog(m: map<nat, seq<Expired>>, f: Forum, b: Block, top: nat, logs: Block -> seq<Expired>)
    requires b.Block? && TopicLogOk(m, b.parent, top, logs) && Height(b.parent) <= top && InReach(Height(b.parent), top)
    requires Height(b) >= TOPIC_LIFE_TIME + 2 ==> ExpiredLog(f, Height(b)) == logs(b)
    ensures TopicLogOk(LogTopics(m, f, Height(b)), b, Max(top, Height(b)), logs)
  {
    hide ExpiredLog, TopicEntryOk, LogPut;
    var h := Height(b);
    var t := LogTopics(m, f, h);
    LogPutKeys(m, h, ExpiredLog(f, h), top);
    forall n: nat | Retained(n, h, Max(top, h)) ensures n in t && TopicEntryOk(t[n], b, n, logs) {
      if n + TOPIC_LIFE_TIME + 1 < h {
        EntriesOfParent(b, n, m[n], Forgotten(0, []), logs);
      } else {
        NewTopicEntry(f, b, logs);
      }
    }
  }

  lemma ApplyTxLog(m: map<nat, Forgotten>, gone: Forgotten, b: Block, top: nat)
    requires b.Block? && TxLogOk(m, b.parent, top) && Height(b.parent) <= top && InReach(Height(b.parent), top)
    requires Height(b) >= TOPIC_LIFE_TIME + 2 ==> TxEntryOk(gone, b, UndoKey(Height(b)))
    ensures TxLogOk(LogPut(m, Height(b), gone), b, Max(top, Height(b)))
  {
    hide TxEntryOk, LogPut;
    var h := Height(b);
    var t := LogPut(m, h, gone);
    LogPutKeys(m, h, gone, top);
    forall n: nat | Retained(n, h, Max(top, h)) ensures n in t && TxEntryOk(t[n], b, n) {
      if n + TOPIC_LIFE_TIME + 1 < h {
        assert Retained(n, h - 1, top);
        EntriesOfParent(b, n, [], m[n], _ => []);
      } else {
        assert n == UndoKey(h) && t[n] == gone;
      }
    }
  }

  lemma NewTxEntry(s: State, b: Block)
    requires IndexOk(s) && b.Block? && b.parent == s.cur && Height(b) >= TOPIC_LIFE_TIME + 2
    ensures TxEntryOk(Leaving(LeavingIds(s.byHeight, Height(b)), Height(b)), b, UndoKey(Height(b)))
  {
    hide Ids, Txs, Reversed, IndexOk;
    LeavingIdsAre(s, Height(b));
  }

  lemma ApplyRewards(s: State, b: Block, t: State, marks: Block -> bool)
    requires RewardsOk(s, marks) && b.Block? && b.parent == s.cur
    requires t.cur == b && t.rewarded == s.rewarded[b := marks(b)]
    ensures RewardsOk(t, marks)
  {
    forall a: Block | a.Block? && IsAncestor(a, t.cur) ensures a in t.rewarded && t.rewarded[a] == marks(a) {
      if a != b {
        assert IsAncestor(a, s.cur);
      }
    }
  }

  /** The logs after a block has pruned them and added its own entries. */
  lemma ApplyLogs(s: State, b: Block, t: State, top: nat, logs: Block -> seq<Expired>)
    requires UndoOk(s, top, logs) && IndexOk(s) && b.Block? && b.parent == s.cur && t.cur == b
    requires t.undoTopics == LogTopics(s.undoTopics, s.books.forum, Height(b))
    requires t.undoTxs == LogTxs(s.undoTxs, LeavingIds(s.byHeight, Height(b)), Height(b))
    requires Height(s.cur) <= top && InReach(Height(s.cur), top)
    requires ExpiredLog(s.books.forum, Height(b)) == logs(b)
    ensures UndoOk(t, Max(top, Height(b)), logs)
  {
    hide ExpiredLog, TopicLogOk, TxLogOk, LogPut, IndexOk;
    if Height(b) >= TOPIC_LIFE_TIME + 2 {
      NewTxEntry(s, b);
    }
    ApplyTopicLog(s.undoTopics, s.books.forum, b, top, logs);
    ApplyTxLog(s.undoTxs, Leaving(LeavingIds(s.byHeight, Height(b)), Height(b)), b, top);
  }

  lemma UndoTopicLog(m: map<nat, seq<Expired>>, b: Block, top: nat, logs: Block -> seq<Expired>)
    requires b.Block? && TopicLogOk(m, b, top, logs)
    ensures TopicLogOk(if Height(b) < TOPIC_LIFE_TIME + 2 then m else m - {UndoKey(Height(b))}, b.parent, top, logs)
  {
    hide TopicEntryOk;
    var h := Height(b);
    forall n: nat | Retained(n, h - 1, top) ensures n in m && TopicEntryOk(m[n], b.parent, n, logs) {
      assert Retained(n, h, top);
      EntriesOfParent(b, n, m[n], Forgotten(0, []), logs);
    }
  }

  lemma UndoTxLog(m: map<nat, Forgotten>, b: Block, top: nat)
    requires b.Block? && TxLogOk(m, b, top)
    ensures TxLogOk(if Height(b) < TOPIC_LIFE_TIME + 2 then m else m - {UndoKey(Height(b))}, b.parent, top)
  {
    hide TxEntryOk;
    var h := Height(b);
    forall n: nat | Retained(n, h - 1, top) ensures n in m && TxEntryOk(m[n], b.parent, n) {
      assert Retained(n, h, top);
      EntriesOfParent(b, n, [], m[n], _ => []);
    }
  }

  /** The entry that undoing `b` reads is retained as long as the parent is in reach. */
  lemma EntryRetained(b: Block, top: nat)
    requires b.Block? && Height(b) >= TOPIC_LIFE_TIME + 2 && InReach(Height(b.parent), top)
    ensures Retained(UndoKey(Height(b)), Height(b), top)
  {
  }

  lemma IndexUndone(s: State, t: State)
    requires IndexOk(s) && s.cur.Block?
    requires t.cur == s.cur.parent && t.byHeight == s.byHeight - {Height(s.cur)} && t.inMain == s.inMain - {s.cur}
    ensures IndexOk(t)
  {
    forall a ensures a in t.inMain <==> IsAncestor(a, t.cur) {
      if IsAncestor(a, t.cur) {
        AncestorHeight(a, t.cur);
      }
    }
  }

  lemma RewardsUndone(s: State, t: State, marks: Block -> bool)
    requires RewardsOk(s, marks) && s.cur.Block? && t.cur == s.cur.parent && t.rewarded == s.rewarded
    ensures RewardsOk(t, marks)
  {
  }

  /** The books of UndoBlock, spelled out. */
  lemma UndoneBooks(s: State)
    requires s.cur.Block?
    ensures var x := UnblockBooks(s.books, s.cur, s.cur in s.rewarded && s.rewarded[s.cur]);
            UndoBlock(s).books ==
              if Height(s.cur) < TOPIC_LIFE_TIME + 2 then x
              else UnprepareBooks(x, LogAt(s.undoTopics, UndoKey(Height(s.cur))),
                                  GoneAt(s.undoTxs, UndoKey(Height(s.cur))))
  {
    hide UnblockBooks, UnprepareBooks;
  }

  lemma UndoneIndex(s: State)
    requires s.cur.Block?
    ensures var t := UndoBlock(s);
            t.byHeight == s.byHeight - {Height(s.cur)} && t.inMain == s.inMain - {s.cur} && t.rewarded == s.rewarded
  {
    hide UnblockBooks, UnprepareBooks;
  }

  lemma UndoneLogs(s: State)
    requires s.cur.Block?
    ensures UndoBlock(s).cur == s.cur.parent
    ensures Height(s.cur) < TOPIC_LIFE_TIME + 2 ==>
              UndoBlock(s).undoTopics == s.undoTopics && UndoBlock(s).undoTxs == s.undoTxs
    ensures Height(s.cur) >= TOPIC_LIFE_TIME + 2 ==>
              && UndoBlock(s).undoTopics == s.undoTopics - {UndoKey(Height(s.cur))}
              && UndoBlock(s).undoTxs == s.undoTxs - {UndoKey(Height(s.cur))}
  {
    hide UnblockBooks, UnprepareBooks;
  }

  /** The entries that taking the current block off reads. */
  lemma EntriesAt(s: State, r: State, top: nat, logs: Block -> seq<Expired>)
    requires s.cur.Block? && Height(s.cur) >= TOPIC_LIFE_TIME + 2 && UndoOk(s, top, logs)
    requires InReach(Height(s.cur.parent), top) && r.cur == s.cur.parent && IndexOk(r)
    ensures UndoKey(Height(s.cur)) in s.undoTopics
    ensures LogAt(s.undoTopics, UndoKey(Height(s.cur))) == logs(s.cur)
    ensures GoneAt(s.undoTxs, UndoKey(Height(s.cur))) == LeavingAt(r)
  {
    hide Ids, Txs, Reversed, IndexOk;
    EntryRetained(s.cur, top);
    LeavingIdsAre(r, Height(s.cur));
    var n := UndoKey(Height(s.cur));
    assert TopicEntryOk(s.undoTopics[n], s.cur, n, logs);
    assert TxEntryOk(s.undoTxs[n], s.cur, n);
    assert AncestorAt(s.cur, n) == AncestorAt(s.cur.parent, n);
  }

  lemma LogPutEarly<T>(m: map<nat, T>, h: nat, entry: T)
    requires h < TOPIC_LIFE_TIME + 2
    ensures LogPut(m, h, entry) == m
  {
  }

  /** The logs after a block has pruned them and its own entries were taken back. */
  lemma PrunedLogs(s: State, t: State, top: nat, logs: Block -> seq<Expired>)
    requires UndoOk(s, top, logs) && IndexOk(s) && Height(s.cur) <= top && InReach(Height(s.cur), top)
    requires forall b: Block :: b.Block? && b.parent == s.cur ==> ExpiredLog(s.books.forum, Height(b)) == logs(b)
    requires t.cur == s.cur
    requires var h := Height(s.cur) + 1;
             if h < TOPIC_LIFE_TIME + 2 then t.undoTopics == s.undoTopics && t.undoTxs == s.undoTxs
             else && t.undoTopics == LogTopics(s.undoTopics, s.books.forum, h) - {UndoKey(h)}
                  && t.undoTxs == LogTxs(s.undoTxs, LeavingIds(s.byHeight, h), h) - {UndoKey(h)}
    ensures UndoOk(t, Max(top, Height(s.cur) + 1), logs)
  {
    hide ExpiredLog, TopicLogOk, TxLogOk, LogPut, IndexOk, LeavingIds, Leaving;
    var b := Block(s.cur, AUTHOR, 0, 0, []);
    var h := Height(b);
    if h >= TOPIC_LIFE_TIME + 2 {
      NewTxEntry(s, b);
    } else {
      LogPutEarly(s.undoTopics, h, ExpiredLog(s.books.forum, h));
      LogPutEarly(s.undoTxs, h, Leaving(LeavingIds(s.byHeight, h), h));
    }
    ApplyTopicLog(s.undoTopics, s.books.forum, b, top, logs);
    ApplyTxLog(s.undoTxs, Leaving(LeavingIds(s.byHeight, h), h), b, top);
    UndoTopicLog(LogTopics(s.undoTopics, s.books.forum, h), b, Max(top, h), logs);
    UndoTxLog(LogTxs(s.undoTxs, LeavingIds(s.byHeight, h), h), b, Max(top, h));
  }
}
