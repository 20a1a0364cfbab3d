/** The ledger without joined lists and members: what remains of every operation when these two are projected away. */
module Stripped {
  import opened Lists
  import opened Chain
  import opened Books
  import opened Inverse
  import opened Invariant
  import opened Expiry
  import opened Blocks

  function StripTopic(t: Topic): Topic {
    t.(members := [])
  }

  function StripTopics(m: map<Key, Topic>): map<Key, Topic> {
    map k | k in m :: StripTopic(m[k])
  }

  function StripLists(m: map<Pubkey, seq<Key>>): map<Pubkey, seq<Key>> {
    map p | p in m :: []
  }

  function StripForum(f: Forum): Forum {
    Forum(StripTopics(f.topics), f.queue, f.owned, StripLists(f.joined))
  }

  function Strip(b: Books): Books {
    b.(forum := StripForum(b.forum))
  }

  function StripLog(log: seq<Expired>): seq<Expired> {
    if log == [] then [] else [Expired(log[0].key, StripTopic(log[0].topic))] + StripLog(log[1..])
  }

  function StripLogs(m: map<nat, seq<Expired>>): map<nat, seq<Expired>> {
    map n | n in m :: StripLog(m[n])
  }

  function StripState(s: State): State {
    s.(books := Strip(s.books), undoTopics := StripLogs(s.undoTopics))
  }

  lemma StripTwice(b: Books)
    ensures Strip(Strip(b)) == Strip(b)
  {
    assert StripTopics(StripTopics(b.forum.topics)) == StripTopics(b.forum.topics);
    assert StripLists(StripLists(b.forum.joined)) == StripLists(b.forum.joined);
  }

  // ---- One transaction

  lemma StripReply(t: Topic, key: Key)
    ensures FindReply(StripTopic(t).replies, key) == FindReply(t.replies, key)
    ensures NormalReplyAt(StripTopic(t), key) == NormalReplyAt(t, key)
    ensures ReplyOwner(StripTopic(t), key) == ReplyOwner(t, key)
  {
  }

  lemma StripPaidTo(f: Forum, tx: Tx)
    ensures PaidTo(StripForum(f), tx) == PaidTo(f, tx)
  {
  }

  /** A newcomer has room for one more joined topic. */
  predicate Room(f: Forum, tx: Tx) {
    Joins(f, tx) ==> |ListAt(f.joined, tx.pubkey)| < 100
  }

  /** Without joined lists no account has too many: every other check gives the same answer. */
  lemma StripOk(b: Books, tx: Tx)
    ensures TxOk(b, tx) <==> TxOk(Strip(b), tx) && Room(b.forum, tx)
  {
    hide FindReply, NormalReplyAt, ReplyOwner, FeeDelta, FeeOk;
    StripFeeOk(b, tx);
    StripForumOk(b.forum, tx);
    hide ForumOk, Joins;
  }

  lemma StripFeeOk(b: Books, tx: Tx)
    ensures FeeOk(Strip(b), tx) == FeeOk(b, tx)
  {
  }

  lemma StripForumOk(f: Forum, tx: Tx)
    ensures ForumOk(f, tx) <==> ForumOk(StripForum(f), tx) && Room(f, tx)
  {
    hide FindReply, NormalReplyAt, ReplyOwner;
    if (tx.body.TxReply? || tx.body.TxReward?) && tx.body.topicKey in f.topics {
      forall key ensures NormalReplyAt(StripTopic(f.topics[tx.body.topicKey]), key)
                         == NormalReplyAt(f.topics[tx.body.topicKey], key) {
        StripReply(f.topics[tx.body.topicKey], key);
      }
      forall key ensures ReplyOwner(StripTopic(f.topics[tx.body.topicKey]), key)
                         == ReplyOwner(f.topics[tx.body.topicKey], key) {
        StripReply(f.topics[tx.body.topicKey], key);
      }
    }
  }

  /** The author of a reply has a joined list. */
  predicate AuthorKnown(f: Forum, tx: Tx) {
    tx.body.TxReply? ==> tx.pubkey in f.joined
  }

  lemma StripPay(t: Topic, to: Key, v: int)
    ensures StripTopic(PayReply(t, to, v)) == PayReply(StripTopic(t), to, v)
  {
  }

  /** Two stripped forums that agree where it matters are equal. */
  lemma SameStripped(f: Forum, g: Forum)
    requires f.queue == g.queue && f.owned == g.owned
    requires forall k :: k in f.topics <==> k in g.topics
    requires forall k :: k in f.topics ==> StripTopic(f.topics[k]) == StripTopic(g.topics[k])
    requires forall p :: p in f.joined <==> p in g.joined
    ensures StripForum(f) == StripForum(g)
  {
    hide StripTopic;
    assert StripTopics(f.topics) == StripTopics(g.topics);
    assert StripLists(f.joined) == StripLists(g.joined);
  }

  /** Appending a reply with or without a new member is the same once members are projected away. */
  lemma StripAppended(t: Topic, txId: Key, who: Pubkey, r: Reply)
    ensures StripTopic(AddReply(AddMember(t, txId, who), r)) == StripTopic(AddReply(t, r))
    ensures StripTopic(AddReply(StripTopic(t), r)) == StripTopic(AddReply(t, r))
  {
  }

  lemma StripReplied(f: Forum, tx: Tx, k: Key, to: Option<Key>)
    requires tx.pubkey in f.joined
    ensures StripForum(ForumReply(StripForum(f), tx, k, to)) == StripForum(ForumReply(f, tx, k, to))
  {
    if k in f.topics {
      var r := Reply(Hash(tx), false, tx.pubkey, to, 0);
      StripAppended(f.topics[k], Hash(tx), tx.pubkey, r);
      StripAppended(StripTopic(f.topics[k]), Hash(tx), tx.pubkey, r);
    }
    hide AddMember, AddReply;
    SameStripped(ForumReply(StripForum(f), tx, k, to), ForumReply(f, tx, k, to));
  }

  lemma StripRewarded(f: Forum, tx: Tx, k: Key, to: Key, paid: int)
    ensures StripForum(ForumReward(StripForum(f), tx, k, to, paid)) == StripForum(ForumReward(f, tx, k, to, paid))
  {
    if k in f.topics {
      StripPay(f.topics[k], to, paid);
    }
    hide FindReply, PayReply;
    SameStripped(ForumReward(StripForum(f), tx, k, to, paid), ForumReward(f, tx, k, to, paid));
  }

  lemma StripApplyForum(f: Forum, tx: Tx, h: nat)
    requires AuthorKnown(f, tx)
    ensures StripForum(ApplyForum(StripForum(f), tx, h)) == StripForum(ApplyForum(f, tx, h))
  {
    hide ForumReply, ForumReward, ForumTopic, ForumReg, StripForum;
    match tx.body
    case TxReply(k, to) => StripReplied(f, tx, k, to);
    case TxReward(k, to, paid) => StripRewarded(f, tx, k, to, paid);
    case TxTopic(reward) => StripOpened(f, tx, reward, h);
    case _ => StripRegistered(f, tx);
  }

  lemma StripOpened(f: Forum, tx: Tx, reward: int, h: nat)
    ensures StripForum(ForumTopic(StripForum(f), tx, reward, h)) == StripForum(ForumTopic(f, tx, reward, h))
    ensures UnTopic(StripForum(f), tx) == StripForum(UnTopic(f, tx))
  {
    SameStripped(ForumTopic(StripForum(f), tx, reward, h), ForumTopic(f, tx, reward, h));
    IsStripped(UnTopic(StripForum(f), tx), UnTopic(f, tx));
  }

  lemma StripRegistered(f: Forum, tx: Tx)
    ensures StripForum(ForumReg(StripForum(f), tx)) == StripForum(ForumReg(f, tx))
    ensures UnReg(StripForum(f), tx) == StripForum(UnReg(f, tx))
    ensures StripForum(StripForum(f)) == StripForum(f)
  {
    SameStripped(ForumReg(StripForum(f), tx), ForumReg(f, tx));
    IsStripped(UnReg(StripForum(f), tx), UnReg(f, tx));
    SameStripped(StripForum(f), f);
  }

  lemma StripApply(b: Books, tx: Tx, h: nat, index: bool)
    requires AuthorKnown(b.forum, tx)
    ensures Strip(ApplyTx(Strip(b), tx, h, index)) == Strip(ApplyTx(b, tx, h, index))
  {
    hide ApplyRegistry, ApplyForum, FeeDelta, BodyDelta, Referrer, PaidTo, StripForum;
    StripApplyForum(b.forum, tx, h);
    StripPaidTo(b.forum, tx);
    assert ApplyMoney(Strip(b), tx) == ApplyMoney(b, tx);
  }

  lemma IsStripped(f: Forum, g: Forum)
    requires f.queue == g.queue && f.owned == g.owned
    requires forall k :: k in f.topics <==> k in g.topics
    requires forall k :: k in f.topics ==> f.topics[k] == StripTopic(g.topics[k])
    requires forall p :: p in f.joined <==> p in g.joined
    requires forall p :: p in f.joined ==> f.joined[p] == []
    ensures f == StripForum(g)
  {
    hide StripTopic;
    assert f.topics == StripTopics(g.topics);
    assert f.joined == StripLists(g.joined);
  }

  lemma StripUnreplied(f: Forum, tx: Tx, k: Key)
    requires tx.pubkey in f.joined
    ensures UnReply(StripForum(f), tx, k) == StripForum(UnReply(f, tx, k))
  {
    IsStripped(UnReply(StripForum(f), tx, k), UnReply(f, tx, k));
  }

  lemma StripUnrewarded(f: Forum, tx: Tx, k: Key, to: Key, paid: int)
    ensures UnReward(StripForum(f), tx, k, to, paid) == StripForum(UnReward(f, tx, k, to, paid))
  {
    if k in f.topics {
      StripPay(f.topics[k], to, 0 - paid);
    }
    hide FindReply, PayReply;
    IsStripped(UnReward(StripForum(f), tx, k, to, paid), UnReward(f, tx, k, to, paid));
  }

  lemma StripUndoForum(f: Forum, tx: Tx)
    requires AuthorKnown(f, tx)
    ensures UndoForum(StripForum(f), tx) == StripForum(UndoForum(f, tx))
  {
    hide UnReply, UnReward, UnTopic, UnReg, StripForum;
    match tx.body
    case TxReply(k, _) => StripUnreplied(f, tx, k);
    case TxReward(k, to, paid) => StripUnrewarded(f, tx, k, to, paid);
    case TxTopic(reward) => StripOpened(f, tx, reward, 0);
    case _ => StripRegistered(f, tx);
  }

  lemma StripUndo(b: Books, tx: Tx, index: bool)
    requires AuthorKnown(b.forum, tx)
    ensures UndoTx(Strip(b), tx, index) == Strip(UndoTx(b, tx, index))
  {
    hide UndoRegistry, UndoForum, FeeDelta, BodyDelta, Referrer, PaidTo, StripForum;
    StripUndoForum(b.forum, tx);
    StripPaidTo(b.forum, tx);
    assert UndoMoney(Strip(b), tx) == UndoMoney(b, tx);
  }

  lemma StripSound(b: Books, h: nat)
    requires Sound(b, h)
    ensures Sound(Strip(b), h)
  {
    hide TopicsOk, QueueOk;
    var d := Strip(b);
    forall p | p in d.reg.accounts ensures AccountOk(d, p) {
      assert AccountOk(b, p);
    }
    StripTopicsOk(b);
    StripQueueOk(b.forum, h);
  }

  lemma StripTopicsOk(b: Books)
    requires TopicsOk(b)
    ensures TopicsOk(Strip(b))
  {
    var d := Strip(b);
    forall k | k in d.forum.topics ensures TopicOk(d, k, d.forum.topics[k]) {
      var t := b.forum.topics[k];
      assert TopicOk(b, k, t);
      forall i | 0 <= i < |t.replies| ensures ReplyOk(d, t.replies[i], t.born) {
        assert ReplyOk(b, t.replies[i], t.born);
      }
    }
  }

  lemma StripQueueOk(f: Forum, h: nat)
    requires QueueOk(f, h)
    ensures QueueOk(StripForum(f), h)
  {
    hide OwnedBy;
  }

  // ---- Expiry and what takes it back

  lemma StripExpireFront(f: Forum)
    requires f.queue != [] && f.queue[0] in f.topics
    ensures ExpireFront(StripForum(f)) == StripForum(ExpireFront(f))
  {
    hide EraseFirst;
    IsStripped(ExpireFront(StripForum(f)), ExpireFront(f));
  }

  lemma {:induction false} StripLogAppend(log: seq<Expired>, e: Expired)
    ensures StripLog(log + [e]) == StripLog(log) + [Expired(e.key, StripTopic(e.topic))]
  {
    if log == [] {
      assert log + [e] == [e];
    } else {
      StripLogAppend(log[1..], e);
      assert (log + [e])[0] == log[0] && (log + [e])[1..] == log[1..] + [e];
    }
  }

  lemma StripOwnerAgrees(f: Forum, h: nat)
    ensures FrontIsOld(StripForum(f), h) == FrontIsOld(f, h)
    ensures OwnerAgrees(StripForum(f)) == OwnerAgrees(f)
  {
  }

  lemma {:induction false} StripExpire(f: Forum, h: nat)
    ensures Expire(StripForum(f), h) == StripForum(Expire(f, h))
    ensures ExpiredLog(StripForum(f), h) == StripLog(ExpiredLog(f, h))
    ensures ExpireOk(StripForum(f), h) == ExpireOk(f, h)
    decreases |f.queue|
  {
    StripOwnerAgrees(f, h);
    if FrontIsOld(f, h) {
      StripExpireFront(f);
      Shorter(f);
      StripExpire(ExpireFront(f), h);
      StripLogAppend(ExpiredLog(ExpireFront(f), h), Expired(f.queue[0], f.topics[f.queue[0]]));
      StripFront(f);
      hide ExpireFront, StripLog, OwnerAgrees, StripForum;
    }
  }

  lemma StripFront(f: Forum)
    requires f.queue != [] && f.queue[0] in f.topics
    ensures StripForum(f).queue == f.queue && f.queue[0] in StripForum(f).topics
    ensures StripForum(f).topics[f.queue[0]] == StripTopic(f.topics[f.queue[0]])
  {
  }

  lemma {:induction false} StripWorth(log: seq<Expired>)
    ensures Worth(StripLog(log)) == Worth(log)
  {
    if log != [] {
      StripWorth(log[1..]);
      assert StripLog(log)[1..] == StripLog(log[1..]);
    }
  }

  lemma StripRestoreFront(f: Forum, e: Expired)
    ensures RestoreFront(StripForum(f), Expired(e.key, StripTopic(e.topic))) == StripForum(RestoreFront(f, e))
  {
    IsStripped(RestoreFront(StripForum(f), Expired(e.key, StripTopic(e.topic))), RestoreFront(f, e));
  }

  lemma {:induction false} StripRestore(f: Forum, log: seq<Expired>)
    ensures Restore(StripForum(f), StripLog(log)) == StripForum(Restore(f, log))
    decreases |log|
  {
    hide StripForum, StripTopic, RestoreFront;
    if log != [] {
      StripRestoreFront(f, log[0]);
      StripRestore(RestoreFront(f, log[0]), log[1..]);
      assert StripLog(log)[1..] == StripLog(log[1..]);
    }
  }
}
