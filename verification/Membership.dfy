/** The members of a topic, whatever joined lists hold: each was added by a reply of its own that the topic still
    has, in the order of these replies. So the reverse loop always finds the member it has to remove at the end. */
module Membership {
  import opened Lists
  import opened Chain
  import opened Books
  import opened Inverse
  import opened Invariant
  import opened Expiry
  import opened Blocks
  import opened Replayed
  import opened Reorg
  import opened UndoLogs
  import opened Stripped
  import opened Bare
  import opened Cores

  /** The members are those whom some of the normal replies added, in order. */
  predicate Within(ms: seq<Member>, rs: seq<Reply>)
    decreases |rs|
  {
    ms == [] ||
    (&& rs != []
     && var m, r := ms[|ms| - 1], rs[|rs| - 1];
        if !r.reward && m.txId == r.key then m.who == r.owner && Within(ms[..|ms| - 1], rs[..|rs| - 1])
        else Within(ms, rs[..|rs| - 1]))
  }

  ghost predicate MembersFit(t: Topic) {
    && Distinct(t.members)
    && (forall i :: 0 <= i < |t.members| ==> t.members[i].who != t.owner)
    && Within(t.members, t.replies)
  }

  ghost predicate FitForum(f: Forum) {
    forall k :: k in f.topics ==> MembersFit(f.topics[k])
  }

  ghost predicate FitLog(log: seq<Expired>) {
    forall i :: 0 <= i < |log| ==> MembersFit(log[i].topic)
  }

  ghost predicate FitLogs(m: map<nat, seq<Expired>>) {
    forall n :: n in m ==> FitLog(m[n])
  }

  /** Every topic, live or expired. */
  ghost predicate FitState(s: State) {
    FitForum(s.books.forum) && FitLogs(s.undoTopics)
  }

  // ---- Replies come and go

  lemma {:induction false} WithinSame(ms: seq<Member>, rs: seq<Reply>, us: seq<Reply>)
    requires |rs| == |us|
    requires forall i :: 0 <= i < |rs| ==>
              us[i].key == rs[i].key && us[i].owner == rs[i].owner && us[i].reward == rs[i].reward
    ensures Within(ms, rs) == Within(ms, us)
    decreases |rs|
  {
    if ms != [] && rs != [] {
      var n := |rs| - 1;
      assert forall i :: 0 <= i < n ==> us[..n][i] == us[i] && rs[..n][i] == rs[i];
      WithinSame(ms[..|ms| - 1], rs[..n], us[..n]);
      WithinSame(ms, rs[..n], us[..n]);
    }
  }

  /** Every member was added by a reply of its own. */
  lemma {:induction false} WithinFrom(ms: seq<Member>, rs: seq<Reply>, i: nat) returns (j: nat)
    requires Within(ms, rs) && i < |ms|
    ensures j < |rs| && rs[j].key == ms[i].txId && rs[j].owner == ms[i].who
    decreases |rs|
  {
    var m, r := ms[|ms| - 1], rs[|rs| - 1];
    if !r.reward && m.txId == r.key {
      if i == |ms| - 1 {
        j := |rs| - 1;
      } else {
        j := WithinFrom(ms[..|ms| - 1], rs[..|rs| - 1], i);
      }
    } else {
      j := WithinFrom(ms, rs[..|rs| - 1], i);
    }
  }

  lemma WithinReply(ms: seq<Member>, rs: seq<Reply>, r: Reply)
    requires Within(ms, rs)
    requires r.reward || forall i :: 0 <= i < |ms| ==> ms[i].txId != r.key
    ensures Within(ms, rs + [r])
  {
    assert (rs + [r])[..|rs|] == rs;
  }

  lemma WithinMember(ms: seq<Member>, rs: seq<Reply>, r: Reply)
    requires Within(ms, rs) && !r.reward
    ensures Within(ms + [Member(r.key, r.owner)], rs + [r])
  {
    assert (rs + [r])[..|rs|] == rs;
    assert (ms + [Member(r.key, r.owner)])[..|ms|] == ms;
  }

  lemma FitPay(t: Topic, to: Key, v: int)
    requires MembersFit(t)
    ensures MembersFit(PayReply(t, to, v))
  {
    WithinSame(t.members, t.replies, PayReply(t, to, v).replies);
  }

  lemma FitReward(t: Topic, r: Reply)
    requires MembersFit(t) && r.reward
    ensures MembersFit(AddReply(t, r))
  {
    WithinReply(t.members, t.replies, r);
  }

  /** A normal reply with a new key, of somebody who joins or does not. */
  lemma FitReply(t: Topic, r: Reply, joins: bool)
    requires MembersFit(t) && !r.reward && (joins ==> r.owner != t.owner)
    requires forall i :: 0 <= i < |t.members| ==> t.members[i].txId != r.key
    ensures MembersFit(AddReply(if joins then AddMember(t, r.key, r.owner) else t, r))
  {
    if joins && !IsMember(t, r.owner) {
      WithinMember(t.members, t.replies, r);
    } else {
      WithinReply(t.members, t.replies, r);
    }
  }

  /** Taking the last reply off, with the member that it added. */
  lemma FitUnreply(t: Topic, tx: Tx, r: Reply, rs: seq<Reply>)
    requires MembersFit(t) && t.replies == rs + [r] && !r.reward && r.key == Hash(tx) && r.owner == tx.pubkey
    ensures var u := DropReply(t);
            MembersFit(if AddedLast(u, tx) then u.(members := DropLast(u.members)) else u)
  {
    assert (rs + [r])[..|rs|] == rs;
  }

  lemma FitUnreward(t: Topic, r: Reply, rs: seq<Reply>)
    requires MembersFit(t) && t.replies == rs + [r] && r.reward
    ensures MembersFit(DropReply(t))
  {
    assert (rs + [r])[..|rs|] == rs;
  }

  // ---- Transactions

  /** An id that is not held is no member's. */
  lemma NewMemberId(b: Books, h: nat, k: Key, id: Key)
    requires Sound(Strip(b), h) && k in b.forum.topics && MembersFit(b.forum.topics[k]) && id !in b.txMap
    ensures forall i :: 0 <= i < |b.forum.topics[k].members| ==> b.forum.topics[k].members[i].txId != id
  {
    hide QueueOk, ColumnsOk, Within;
    var t := b.forum.topics[k];
    assert k in Strip(b).forum.topics && Strip(b).forum.topics[k] == StripTopic(t);
    assert TopicOk(Strip(b), k, StripTopic(t));
    forall i | 0 <= i < |t.members| ensures t.members[i].txId != id {
      var j := WithinFrom(t.members, t.replies, i);
      assert ReplyOk(Strip(b), StripTopic(t).replies[j], t.born);
    }
  }

  lemma FitApplyReply(f: Forum, tx: Tx, k: Key, to: Option<Key>)
    requires FitForum(f) && tx.body == TxReply(k, to) && k in f.topics
    requires forall i :: 0 <= i < |f.topics[k].members| ==> f.topics[k].members[i].txId != Hash(tx)
    ensures FitForum(ForumReply(f, tx, k, to))
  {
    FitReply(f.topics[k], Reply(Hash(tx), false, tx.pubkey, to, 0), Joins(f, tx));
    hide MembersFit, AddReply, AddMember;
  }

  lemma FitApplyReward(f: Forum, tx: Tx, k: Key, to: Key, paid: int)
    requires FitForum(f) && k in f.topics
    ensures FitForum(ForumReward(f, tx, k, to, paid))
  {
    FitPay(f.topics[k], to, paid);
    FitReward(PayReply(f.topics[k], to, paid), Reply(Hash(tx), true, tx.pubkey, Some(to), paid));
    hide MembersFit, AddReply, PayReply;
  }

  lemma FitApplyTopic(f: Forum, tx: Tx, reward: int, h: nat)
    requires FitForum(f)
    ensures FitForum(ForumTopic(f, tx, reward, h))
  {
    assert MembersFit(Topic(tx.pubkey, h, reward, reward, [], []));
    hide MembersFit;
  }

  lemma FitApplyTx(b: Books, tx: Tx, h: nat)
    requires Sound(Strip(b), h) && TxOk(b, tx) && FitForum(b.forum)
    ensures FitForum(ApplyForum(b.forum, tx, h))
  {
    hide ForumReply, ForumReward, ForumTopic, MembersFit, Strip, Sound, NormalReplyAt, ReplyOwner, FeeDelta;
    match tx.body
    case TxTopic(reward) => FitApplyTopic(b.forum, tx, reward, h);
    case TxReply(k, to) =>
      NewMemberId(b, h, k, Hash(tx));
      FitApplyReply(b.forum, tx, k, to);
    case TxReward(k, to, paid) => FitApplyReward(b.forum, tx, k, to, paid);
    case _ =>
  }

  lemma {:induction false} FitApplyTxs(b: Books, txs: seq<Tx>, h: nat, index: bool)
    requires Sound(Strip(b), h) && TxsFit(b, txs, h, index) && FitForum(b.forum)
    ensures FitForum(ApplyTxs(b, txs, h, index).forum)
    decreases |txs|
  {
    hide Sound, TxOk, FormatOk, ApplyForum, ApplyRegistry, ApplyMoney, Strip, FitForum;
    if txs != [] {
      var init := txs[..|txs| - 1];
      FitApplyTxs(b, init, h, index);
      StripTxs(b, init, h, index);
      FitApplyTx(ApplyTxs(b, init, h, index), txs[|txs| - 1], h);
    }
  }

  /** The replies that the transaction left in its topic. */
  lemma RepliesLeft(s: Books, r: Books, tx: Tx, h: nat, index: bool)
    requires TxOk(r, tx) && Strip(s) == Strip(ApplyTx(r, tx, h, index))
    ensures tx.body.TxReply? || tx.body.TxReward? ==>
              var k := tx.body.topicKey;
              && k in s.forum.topics && k in r.forum.topics
              && var t, n := s.forum.topics[k], |r.forum.topics[k].replies|;
                 && |t.replies| == n + 1
                 && t.replies[n].key == Hash(tx) && t.replies[n].owner == tx.pubkey
                 && t.replies[n].reward == tx.body.TxReward?
  {
    hide FindReply, FeeDelta, ApplyMoney, ApplyRegistry, IsMember;
    var d := ApplyTx(r, tx, h, index);
    if tx.body.TxReply? || tx.body.TxReward? {
      var k := tx.body.topicKey;
      assert k in StripTopics(d.forum.topics) && k in StripTopics(s.forum.topics);
      assert StripTopics(s.forum.topics)[k] == StripTopics(d.forum.topics)[k];
      assert s.forum.topics[k].replies == d.forum.topics[k].replies;
    }
  }

  lemma FitUndoTx(s: Books, r: Books, tx: Tx, h: nat, index: bool)
    requires TxOk(r, tx) && Strip(s) == Strip(ApplyTx(r, tx, h, index)) && FitForum(s.forum)
    ensures FitForum(UndoForum(s.forum, tx))
  {
    hide TxOk, Strip, ApplyTx, MembersFit, PayReply, DropReply, AddedLast, DropLast;
    RepliesLeft(s, r, tx, h, index);
    match tx.body
    case TxReply(k, _) =>
      var t := s.forum.topics[k];
      var n := |t.replies| - 1;
      assert t.replies == t.replies[..n] + [t.replies[n]];
      FitUnreply(t, tx, t.replies[n], t.replies[..n]);
    case TxReward(k, to, paid) =>
      FitUnrewarded(s.forum.topics[k], to, 0 - paid);
    case _ =>
  }

  lemma FitUnrewarded(t: Topic, to: Key, v: int)
    requires MembersFit(t) && t.replies != [] && t.replies[|t.replies| - 1].reward
    ensures MembersFit(DropReply(PayReply(t, to, v)))
  {
    FitPay(t, to, v);
    var u := PayReply(t, to, v);
    var n := |u.replies| - 1;
    assert u.replies == u.replies[..n] + [u.replies[n]];
    FitUnreward(u, u.replies[n], u.replies[..n]);
  }

  lemma {:induction false} FitUndoTxs(s: Books, r: Books, txs: seq<Tx>, h: nat, index: bool)
    requires Strip(r) == r && Sound(r, h) && BareFit(r, txs, h, index)
    requires Strip(s) == BareTxs(r, txs, h, index) && FitForum(s.forum)
    ensures FitForum(UndoTxs(s, txs, index).forum)
    decreases |txs|
  {
    hide Sound, TxOk, FormatOk, ApplyTx, UndoForum, UndoMoney, UndoRegistry, Strip, FitForum;
    if txs != [] {
      var init, tx := txs[..|txs| - 1], txs[|txs| - 1];
      var c := BareTxs(r, init, h, index);
      BareIsStripped(r, init, h, index);
      BareFitSound(r, init, h, index);
      BareUndo(s, c, tx, h, index);
      FitUndoTx(s, c, tx, h, index);
      FitUndoTxs(UndoTx(s, tx, index), r, init, h, index);
    }
  }

  // ---- Expiry and what takes it back

  lemma {:induction false} FitExpire(f: Forum, h: nat)
    requires FitForum(f)
    ensures FitForum(Expire(f, h)) && FitLog(ExpiredLog(f, h))
    decreases |f.queue|
  {
    hide MembersFit, LeaveAll;
    if FrontIsOld(f, h) {
      FitExpire(ExpireFront(f), h);
    }
  }

  lemma {:induction false} FitRestore(f: Forum, log: seq<Expired>)
    requires FitForum(f) && FitLog(log)
    ensures FitForum(Restore(f, log))
    decreases |log|
  {
    hide MembersFit, RejoinAll;
    if log != [] {
      FitRestore(RestoreFront(f, log[0]), log[1..]);
    }
  }

  lemma FitLogPut(m: map<nat, seq<Expired>>, h: nat, entry: seq<Expired>)
    requires FitLogs(m) && FitLog(entry)
    ensures FitLogs(LogPut(m, h, entry))
  {
    hide FitLog;
  }

  // ---- Blocks

  lemma FitNext(s: State)
    requires FitState(s)
    ensures FitForum(NextBooks(s).forum)
  {
    hide NextBooks, Expire, FitForum, FitLogs;
    PreparedForum(s);
    FitExpire(s.books.forum, Height(s.cur) + 1);
  }

  lemma FitApply(s: State, b: Block, top: nat)
    requires Core(s, top) && BlockOk(s, b) && FitState(s)
    ensures FitState(ApplyBlock(s, b))
  {
    hide Core, BlockOk, NextBooks, FitForum, FitLogs, FitLog, TxsFit, ApplyTxs, ApplyBlock, Strip, Sound, ExpiredLog,
         LogPut;
    CoreNext(s, top);
    AppliedForum(s, b);
    FitNext(s);
    FitApplyTxs(NextBooks(s), b.txs, Height(b), true);
    FitExpire(s.books.forum, Height(b));
    FitLogPut(s.undoTopics, Height(b), ExpiredLog(s.books.forum, Height(b)));
    AppliedLogs(s, b);
  }

  lemma AppliedLogs(s: State, b: Block)
    requires b.Block?
    ensures ApplyBlock(s, b).undoTopics == LogPut(s.undoTopics, Height(b), ExpiredLog(s.books.forum, Height(b)))
  {
    hide BlockBooks, BlockRewarded, PrepareBooks, ExpiredLog, LeavingIds, LogPut, Leaving;
  }

  /** The next block of a ledger with a core starts from books in order. */
  lemma CoreNext(s: State, top: nat)
    requires Core(s, top)
    ensures Sound(Strip(NextBooks(s)), Height(s.cur) + 1)
  {
    hide SoundBoundary, Strip, StripState, NextBooks, Sound, BareReplay, UndoOk, RewardsOk, IndexOk, BareBoundary;
    StrippedBoundary(s);
    StripParts(s);
    StripNext(s);
    SoundNextBooks(StripState(s));
  }

  lemma FitUndo(s: State, top: nat)
    requires Core(s, top) && s.cur.Block? && InReach(Height(s.cur.parent), top) && FitState(s)
    ensures FitState(UndoBlock(s))
  {
    hide Strip, StripLogs, StripState, UndoOk, IndexOk, BareReplay, UndoBlock, BareMark, BareLog, UnblockBooks, LogAt,
         GoneAt, UnprepareBooks, BareBoundary, BareOk, BareBlock, NextBooks, ExpiredLog, FitForum, FitLogs, FitLog,
         Restore;
    var b := s.cur;
    BareParent(b);
    var r := BareReplay(b.parent).value;
    BareReplayed(b.parent);
    BareBooksAre(r, b);
    BareNextReplay(b);
    assert IsAncestor(b, s.cur);
    FitUnblock(s.books, r, b);
    UndoneBooks(s);
    UndoneLogs(s);
    FitLogAt(s.undoTopics, UndoKeyOf(Height(b)));
    if Height(b) >= TOPIC_LIFE_TIME + 2 {
      var log, gone := LogAt(s.undoTopics, UndoKey(Height(b))), GoneAt(s.undoTxs, UndoKey(Height(b)));
      var x := UnblockBooks(s.books, b, BareMark(b));
      RestoredForum(x, log, gone);
      FitRestore(x.forum, log);
    }
  }

  function UndoKeyOf(h: nat): nat {
    if h >= TOPIC_LIFE_TIME + 2 then UndoKey(h) else 0
  }

  lemma FitLogAt(m: map<nat, seq<Expired>>, n: nat)
    requires FitLogs(m)
    ensures FitLog(LogAt(m, n)) && FitLogs(m - {n})
  {
  }

  lemma FitUnblock(x: Books, r: State, b: Block)
    requires BareBoundary(r) && BareOk(r, b) && Strip(x) == BareBlockBooks(NextBooks(r), b) && FitForum(x.forum)
    ensures FitForum(UnblockBooks(x, b, BareRewarded(NextBooks(r), b)).forum)
  {
    hide Strip, NextBooks, BareFit, BareTxs, Sound, UndoTxs, PayMiner, UnpayMiner, Rewards, BareOk, SoundBoundary,
         FitForum;
    BareOkShape(r, b);
    BareSound(r);
    SoundNextBooks(r);
    BareNext(r);
    var y := UnpaidBooks(x, r, b);
    FitUndoTxs(y, NextBooks(r), b.txs, Height(b), true);
  }

  lemma FitTried(s: State, txs: seq<Tx>, top: nat)
    requires Core(s, top) && TxsFit(NextBooks(s), txs, Height(s.cur) + 1, false) && FitState(s)
    ensures FitState(Tried(s, txs))
  {
    hide Core, NextBooks, FitForum, FitLogs, FitLog, TxsFit, ApplyTxs, UndoTxs, Strip, Sound, ExpiredLog, LogPut, Tried,
         UnprepareBooks, Restore, LeavingIds, Leaving, BareFit, BareTxs;
    var h := Height(s.cur) + 1;
    var p := NextBooks(s);
    CoreNext(s, top);
    BareTried(p, txs, h);
    FitNext(s);
    FitApplyTxs(p, txs, h, false);
    FitUndoTxs(ApplyTxs(p, txs, h, false), Strip(p), txs, h, false);
    TriedParts(s, txs);
    if h >= TOPIC_LIFE_TIME + 2 {
      var x, log := UndoTxs(ApplyTxs(p, txs, h, false), txs, false), ExpiredLog(s.books.forum, h);
      FitExpire(s.books.forum, h);
      RestoredForum(x, log, Leaving(LeavingIds(s.byHeight, h), h));
      FitRestore(x.forum, log);
      FitLogPut(s.undoTopics, h, log);
      FitLogAt(LogTopics(s.undoTopics, s.books.forum, h), UndoKey(h));
    }
  }

  // ---- Ledgers whose core and members are in order

  /** But for joined lists and members the ledger is that of its branch, and every member was added by a reply. */
  ghost predicate Steady(s: State, top: nat) {
    Core(s, top) && FitState(s)
  }

  lemma SteadyApply(s: State, b: Block, top: nat)
    requires Steady(s, top) && BlockOk(s, b)
    ensures Steady(ApplyBlock(s, b), Max(top, Height(b)))
  {
    hide Core, FitState, BlockOk, ApplyBlock;
    CoreApply(s, b, top);
    FitApply(s, b, top);
  }

  lemma SteadyUndo(s: State, top: nat)
    requires Steady(s, top) && s.cur.Block? && InReach(Height(s.cur.parent), top)
    ensures CanUndo(s) && UndoBlock(s).cur == s.cur.parent && Steady(UndoBlock(s), top)
  {
    hide Core, FitState, UndoBlock, CanUndo;
    CoreUndo(s, top);
    FitUndo(s, top);
  }

  lemma SteadyTried(s: State, txs: seq<Tx>, top: nat)
    requires Steady(s, top) && TxsFit(NextBooks(s), txs, Height(s.cur) + 1, false)
    ensures Tried(s, txs).cur == s.cur && Steady(Tried(s, txs), Max(top, Height(s.cur) + 1))
  {
    hide Core, FitState, Tried, TxsFit, NextBooks;
    CoreTried(s, txs, top);
    FitTried(s, txs, top);
  }

  /** Rollback's first loop reaches every ancestor in reach, whatever the joined lists hold. */
  lemma {:induction false} SteadyRollback(s: State, f: Block, top: nat)
    requires Steady(s, top) && IsAncestor(f, s.cur) && InReach(Height(f), top)
    ensures Rollback(s, Height(f)).cur == f
    ensures Steady(Rollback(s, Height(f)), top)
    decreases Height(s.cur)
  {
    hide Steady, UndoBlock, CanUndo;
    AncestorHeight(f, s.cur);
    if s.cur != f {
      AncestorHeight(f, s.cur.parent);
      SteadyUndo(s, top);
      SteadyRollback(UndoBlock(s), f, top);
    }
  }

  lemma {:induction false} SteadyApplyBlocks(s: State, t: Block, top: nat)
    requires Steady(s, top) && IsAncestor(s.cur, t)
    requires ApplyBlocks(s, PathFrom(s.cur, t)).Some?
    ensures ApplyBlocks(s, PathFrom(s.cur, t)).value.cur == t
    ensures Steady(ApplyBlocks(s, PathFrom(s.cur, t)).value, Max(top, Height(t)))
    decreases t
  {
    hide ApplyBlock, BlockOk, UndoOk, IndexOk, RewardsOk, StripState, FitState, Strip;
    if t == s.cur {
    } else {
      hide Core, Steady;
      var p := PathFrom(s.cur, t.parent);
      assert PathFrom(s.cur, t)[..|p|] == p;
      SteadyApplyBlocks(s, t.parent, top);
      SteadyApply(ApplyBlocks(s, p).value, t, Max(top, Height(t.parent)));
      AppliedCur(ApplyBlocks(s, p).value, t);
    }
  }

  /** A branch switch that succeeds leaves a steady ledger of the target, whatever it does to the joined lists. */
  lemma SteadySwitch(s: State, fork: Block, to: Block, top: nat)
    requires Steady(s, top) && IsFork(fork, s.cur, to) && InReach(Height(fork), top)
    requires Switched(s, fork, PathFrom(fork, to)).Some?
    ensures Switched(s, fork, PathFrom(fork, to)).value.cur == to
    ensures Steady(Switched(s, fork, PathFrom(fork, to)).value, Max(top, Height(to)))
  {
    hide Steady, Rollback, ApplyBlocks;
    SteadyRollback(s, fork, top);
    SteadyApplyBlocks(Rollback(s, Height(fork)), to, top);
  }

  /** Books that are in order without joined lists and members are in order with them. */
  lemma SoundFrom(b: Books, h: nat)
    requires Sound(Strip(b), h) && FitForum(b.forum)
    ensures Sound(b, h)
  {
    hide TopicsOk, QueueOk, FitForum;
    ColumnsFrom(b);
    TopicsFrom(b);
    QueueFrom(b.forum, h);
  }

  lemma ColumnsFrom(b: Books)
    requires ColumnsOk(Strip(b))
    ensures ColumnsOk(b)
  {
    var d := Strip(b);
    forall p | p in b.reg.accounts ensures AccountOk(b, p) {
      assert AccountOk(d, p);
    }
  }

  lemma TopicsFrom(b: Books)
    requires TopicsOk(Strip(b)) && FitForum(b.forum)
    ensures TopicsOk(b)
  {
    hide MembersFit, TopicOk;
    var d := Strip(b);
    forall k | k in b.forum.topics ensures TopicOk(b, k, b.forum.topics[k]) {
      assert TopicOk(d, k, d.forum.topics[k]);
      TopicFrom(b, k);
    }
  }

  lemma TopicFrom(b: Books, k: Key)
    requires k in b.forum.topics && TopicOk(Strip(b), k, StripTopic(b.forum.topics[k]))
    requires MembersFit(b.forum.topics[k])
    ensures TopicOk(b, k, b.forum.topics[k])
  {
    hide Within;
    var d, t := Strip(b), b.forum.topics[k];
    forall i | 0 <= i < |t.replies| ensures ReplyOk(b, t.replies[i], t.born) {
      assert ReplyOk(d, StripTopic(t).replies[i], t.born);
    }
    forall i | 0 <= i < |t.members| ensures MemberOk(b, t.members[i], t.born) {
      var j := WithinFrom(t.members, t.replies, i);
      assert ReplyOk(d, StripTopic(t).replies[j], t.born);
    }
  }

  lemma QueueFrom(f: Forum, h: nat)
    requires QueueOk(StripForum(f), h)
    ensures QueueOk(f, h)
  {
    hide OwnedBy;
    var g := StripForum(f);
    assert forall k :: k in f.topics <==> k in g.topics;
    assert forall k :: k in f.topics ==> g.topics[k].born == f.topics[k].born;
  }

  /** Such a ledger is at a block boundary. */
  lemma SteadyBoundary(s: State, top: nat)
    requires Steady(s, top)
    ensures SoundBoundary(s)
  {
    hide BareReplay, Strip, IndexOk, UndoOk, RewardsOk, BareBoundary, Sound, LiveFrom, FreshIds, IdMap, TopicIds,
         FitForum, FitLogs, StripState;
    StrippedBoundary(s);
    StripParts(s);
    SoundFrom(s.books, Height(s.cur));
    LiveStripped(s.books, Oldest(Height(s.cur)));
  }

  lemma LiveStripped(b: Books, lo: int)
    requires LiveFrom(Strip(b).forum, lo)
    ensures LiveFrom(b.forum, lo) && Strip(b).txMap == b.txMap && Strip(b).forum.queue == b.forum.queue
  {
    assert forall k :: k in b.forum.topics ==> Strip(b).forum.topics[k].born == b.forum.topics[k].born;
  }
}
