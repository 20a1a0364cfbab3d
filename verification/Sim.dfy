/** Books that differ only in the joined lists. When the lists hold the same topics, they behave alike; whatever the
    lists hold, undoing a transaction behaves alike on everything else. */
module Sim {
  import opened Lists
  import opened Chain
  import opened Books
  import opened Inverse
  import opened Invariant
  import opened Expiry

  ghost predicate BooksAlike(s: Books, r: Books) {
    s.reg == r.reg && s.bal == r.bal && s.txMap == r.txMap && ForumAlike(s.forum, r.forum)
  }

  ghost predicate BooksSim(s: Books, r: Books) {
    BooksAlike(s, r) && JoinedSame(s.forum, r.forum)
  }

  lemma SimRefl(r: Books, h: nat)
    requires Inv(r, h)
    ensures BooksSim(r, r)
  {
    hide Sound, MembersOk;
    forall p | p in r.forum.joined ensures Permuted(r.forum.joined[p], r.forum.joined[p]) {
      assert JoinedListOk(r.forum, p);
    }
  }

  // ---- Transactions

  /** Every check gives the same answer on both sides. */
  lemma SimChecks(s: Books, r: Books, tx: Tx)
    requires BooksSim(s, r)
    ensures TxOk(s, tx) == TxOk(r, tx)
    ensures Joins(s.forum, tx) == Joins(r.forum, tx)
  {
    hide NoDup, FindReply, NormalReplyAt, ReplyOwner, FeeDelta;
  }

  lemma SimApplyForum(s: Forum, r: Forum, tx: Tx, h: nat)
    requires ForumSim(s, r) && Joins(s, tx) == Joins(r, tx)
    requires tx.body.TxReply? ==> tx.pubkey in r.joined
    ensures ForumSim(ApplyForum(s, tx, h), ApplyForum(r, tx, h))
  {
    hide Permuted, FindReply, NormalReplyAt, ReplyOwner, AddMember, AddReply, PayReply;
    match tx.body
    case TxReg(_, _, _) => NothingPermuted();
    case TxReply(k, _) =>
      if Joins(r, tx) {
        JoinedPushBack(s.joined[tx.pubkey], r.joined[tx.pubkey], k);
      }
    case _ =>
  }

  lemma JoinedPushBack(a: seq<Key>, b: seq<Key>, k: Key)
    requires Permuted(a, b) && k !in b
    ensures Permuted(a + [k], b + [k]) && |a + [k]| == |b + [k]|
  {
    PermutedPushBack(a, b, k);
    PermutedSame(a, b);
  }

  lemma NothingPermuted()
    ensures Permuted<Key>([], [])
  {
  }

  lemma SimApply(s: Books, r: Books, tx: Tx, h: nat, index: bool)
    requires BooksSim(s, r) && TxOk(r, tx) && ColumnsOk(r)
    ensures BooksSim(ApplyTx(s, tx, h, index), ApplyTx(r, tx, h, index))
  {
    hide ForumAlike, JoinedSame, ApplyRegistry, ApplyForum, FeeDelta, BodyDelta, ForumOk;
    assert AccountOk(r, Payer(tx));
    SimChecks(s, r, tx);
    SimApplyForum(s.forum, r.forum, tx, h);
    AlikePaidTo(s.forum, r.forum, tx);
    assert ApplyMoney(s, tx) == ApplyMoney(r, tx);
  }

  lemma AlikePaidTo(s: Forum, r: Forum, tx: Tx)
    requires ForumAlike(s, r)
    ensures PaidTo(s, tx) == PaidTo(r, tx)
  {
  }

  // ---- Undoing a transaction on a forum that is like the one it left behind, whatever its joined lists hold

  /** The topic that `tx` puts at the end of the joined list of `p`, when it is a first reply of `p`. */
  ghost function JoinOf(f: Forum, tx: Tx, p: Pubkey): seq<Key> {
    if Joins(f, tx) && tx.pubkey == p then [tx.body.topicKey] else []
  }

  lemma ListGrows(f: Forum, tx: Tx, h: nat, p: Pubkey)
    requires p in f.joined && (tx.body.TxReg? ==> tx.pubkey !in f.joined)
    ensures p in ApplyForum(f, tx, h).joined
    ensures ApplyForum(f, tx, h).joined[p] == f.joined[p] + JoinOf(f, tx, p)
  {
    hide FindReply, AddReply, AddMember, PayReply;
  }

  /** `q` without its last `n` elements. */
  function DropEnd<T>(q: seq<T>, n: nat): seq<T> {
    if n <= |q| then q[..|q| - n] else []
  }

  lemma UndoneMembers(f: Forum, tx: Tx, k: Key, to: Option<Key>)
    requires tx.body.TxReply? && tx.body.topicKey == k && k in f.topics
    requires forall i :: 0 <= i < |f.topics[k].members| ==> f.topics[k].members[i].txId != Hash(tx)
    requires Joins(f, tx) ==> !IsMember(f.topics[k], tx.pubkey)
    ensures AddedLast(DropReply(ForumReply(f, tx, k, to).topics[k]), tx) == Joins(f, tx)
  {
  }

  /** What the reverse step makes of the forum: everything else is as before, and of the author's joined list the last
      element is gone when the transaction had joined a topic. */
  ghost predicate ForumUndone(s: Forum, f: Forum, tx: Tx) {
    && ForumAlike(UndoForum(s, tx), f)
    && forall p :: p in f.joined ==>
         p in s.joined && UndoForum(s, tx).joined[p] == DropEnd(s.joined[p], |JoinOf(f, tx, p)|)
  }

  lemma AlikeUndoForum(s: Forum, b: Books, tx: Tx, h: nat)
    requires TxOk(b, tx) && FormatOk(tx) && ColumnsOk(b) && TopicsOk(b) && MembersOk(b.forum)
    requires ForumAlike(s, ApplyForum(b.forum, tx, h))
    ensures ForumUndone(s, b.forum, tx)
  {
    hide ForumOk, TopicsOk, ColumnsOk, MembersOk, UnTopic, ForumTopic, UnReward, ForumReward, UnReply, ForumReply,
         AddedLast, IsMember, UnReg, ForumReg, FeeOk, ForumUndone;
    var f := b.forum;
    UndoApplyForum(b, tx, h);
    match tx.body
    case TxReg(_, _, _) => AlikeUnReg(s, f, tx);
    case TxSend(_, _) => NothingUndone(s, f, tx);
    case TxTopic(reward) => AlikeUnTopic(s, f, tx, reward, h);
    case TxReply(k, to) =>
      InForum(b, tx);
      FreshMember(b, tx, k);
      AlikeUnReply(s, f, tx, k, to);
    case TxReward(k, to, paid) => AlikeUnReward(s, f, tx, k, to, paid);
  }

  lemma InForum(b: Books, tx: Tx)
    requires ForumOk(b.forum, tx) && tx.body.TxReply?
    ensures tx.body.topicKey in b.forum.topics
  {
  }

  lemma NothingUndone(s: Forum, f: Forum, tx: Tx)
    requires tx.body.TxSend? && ForumAlike(s, f)
    ensures ForumUndone(s, f, tx)
  {
  }

  lemma AlikeUnReg(s: Forum, f: Forum, tx: Tx)
    requires tx.body.TxReg? && ForumAlike(s, ForumReg(f, tx))
    requires UnReg(ForumReg(f, tx), tx) == f
    ensures ForumUndone(s, f, tx)
  {
    assert f.joined == ForumReg(f, tx).joined - {tx.pubkey};
  }

  lemma AlikeUnTopic(s: Forum, f: Forum, tx: Tx, reward: int, h: nat)
    requires tx.body.TxTopic? && ForumAlike(s, ForumTopic(f, tx, reward, h))
    requires UnTopic(ForumTopic(f, tx, reward, h), tx) == f
    ensures ForumUndone(s, f, tx)
  {
    hide DropLast, ListAt;
  }

  lemma AlikeUnReward(s: Forum, f: Forum, tx: Tx, k: Key, to: Key, paid: nat)
    requires tx.body == TxReward(k, to, paid) && ForumAlike(s, ForumReward(f, tx, k, to, paid))
    requires UnReward(ForumReward(f, tx, k, to, paid), tx, k, to, paid) == f
    ensures ForumUndone(s, f, tx)
  {
    hide DropReply, PayReply, AddReply;
  }

  lemma AlikeUnReply(s: Forum, f: Forum, tx: Tx, k: Key, to: Option<Key>)
    requires tx.body == TxReply(k, to) && k in f.topics && tx.pubkey in f.joined
    requires ForumAlike(s, ForumReply(f, tx, k, to))
    requires UnReply(ForumReply(f, tx, k, to), tx, k) == f
    requires forall i :: 0 <= i < |f.topics[k].members| ==> f.topics[k].members[i].txId != Hash(tx)
    requires Joins(f, tx) ==> !IsMember(f.topics[k], tx.pubkey)
    ensures ForumUndone(s, f, tx)
  {
    hide AddedLast, AddMember, AddReply, DropReply, IsMember;
    UndoneMembers(f, tx, k, to);
    assert UnReply(s, tx, k).topics == f.topics;
  }

  /** The reverse step on books whose joined lists hold anything: balances, registry, topics, queue, own lists and id
      map come back, and the author of a first reply loses the last element of its joined list. */
  lemma AlikeUndo(s: Books, b: Books, tx: Tx, h: nat, index: bool)
    requires TxOk(b, tx) && FormatOk(tx) && ColumnsOk(b) && TopicsOk(b) && MembersOk(b.forum)
    requires BooksAlike(s, ApplyTx(b, tx, h, index))
    ensures BooksAlike(UndoTx(s, tx, index), b)
    ensures forall p :: p in b.forum.joined ==>
              p in s.forum.joined
              && UndoTx(s, tx, index).forum.joined[p] == DropEnd(s.forum.joined[p], |JoinOf(b.forum, tx, p)|)
  {
    hide ForumAlike, ApplyRegistry, UndoRegistry, ApplyForum, UndoForum, FeeDelta, BodyDelta, TxOk, ColumnsOk, TopicsOk,
         MembersOk, DropEnd;
    var d := ApplyTx(b, tx, h, index);
    AlikeUndoForum(s.forum, b, tx, h);
    UndoApply(b, tx, h, index);
    AlikePaidTo(s.forum, d.forum, tx);
    assert UndoMoney(s, tx) == UndoMoney(d, tx);
  }

  // ---- Books that are alike are equally in order, whatever their joined lists hold

  lemma AlikeSound(s: Books, r: Books, h: nat)
    requires BooksAlike(s, r) && Sound(r, h)
    ensures Sound(s, h)
  {
    hide QueueOk, ColumnsOk, TopicsOk;
    AlikeColumns(s, r);
    AlikeTopics(s, r);
    AlikeQueue(s.forum, r.forum, h);
  }

  lemma AlikeColumns(s: Books, r: Books)
    requires BooksAlike(s, r) && ColumnsOk(r)
    ensures ColumnsOk(s)
  {
    forall p | p in s.reg.accounts ensures AccountOk(s, p) {
      assert AccountOk(r, p);
    }
  }

  lemma AlikeTopics(s: Books, r: Books)
    requires BooksAlike(s, r) && TopicsOk(r)
    ensures TopicsOk(s)
  {
    hide TopicOk;
    forall k | k in s.forum.topics ensures TopicOk(s, k, s.forum.topics[k]) {
      TopicOkMono(r, s, k, r.forum.topics[k]);
    }
  }

  lemma AlikeQueue(s: Forum, r: Forum, h: nat)
    requires ForumAlike(s, r) && QueueOk(r, h)
    ensures QueueOk(s, h)
  {
  }
}
