/** What every applied transaction keeps about the books. */
module Invariant {
  import opened Lists
  import opened Chain
  import opened Books
  import opened Inverse

  /** The topics of the queue that `p` owns, in queue order. */
  function OwnedBy(q: seq<Key>, p: Pubkey): seq<Key> {
    if q == [] then []
    else if OwnerOf(q[0]) == p then [q[0]] + OwnedBy(q[1..], p)
    else OwnedBy(q[1..], p)
  }

  lemma {:induction false} OwnedByAppend(q: seq<Key>, k: Key, p: Pubkey)
    ensures OwnedBy(q + [k], p) == if OwnerOf(k) == p then OwnedBy(q, p) + [k] else OwnedBy(q, p)
  {
    if q == [] {
      assert q + [k] == [k];
    } else {
      OwnedByAppend(q[1..], k, p);
      assert (q + [k])[0] == q[0] && (q + [k])[1..] == q[1..] + [k];
      if OwnerOf(q[0]) == p && OwnerOf(k) == p {
        assert [q[0]] + (OwnedBy(q[1..], p) + [k]) == ([q[0]] + OwnedBy(q[1..], p)) + [k];
      }
    }
  }

  ghost predicate SortedByAge(f: Forum) {
    forall i, j :: 0 <= i < j < |f.queue| && f.queue[i] in f.topics && f.queue[j] in f.topics ==>
      f.topics[f.queue[i]].born <= f.topics[f.queue[j]].born
  }

  ghost predicate NoneYounger(f: Forum, h: nat) {
    forall k :: k in f.topics ==> f.topics[k].born <= h
  }

  /** The queue lists every live topic once, oldest block first, none younger than block `h`, and each
      account's own list is the queue restricted to its topics. */
  ghost predicate QueueOk(f: Forum, h: nat) {
    && NoDup(f.queue)
    && (forall k :: k in f.queue <==> k in f.topics)
    && (forall p :: p in f.owned ==> f.owned[p] == OwnedBy(f.queue, p))
    && SortedByAge(f)
    && NoneYounger(f, h)
  }

  /** The books are in order, whatever the joined lists hold. */
  ghost predicate Sound(b: Books, h: nat) {
    ColumnsOk(b) && TopicsOk(b) && QueueOk(b.forum, h)
  }

  ghost predicate Inv(b: Books, h: nat) {
    Sound(b, h) && Linked(b.forum)
  }

  lemma {:induction false} NotOwned(q: seq<Key>, p: Pubkey)
    requires forall k :: k in q ==> OwnerOf(k) != p
    ensures OwnedBy(q, p) == []
  {
    if q != [] {
      NotOwned(q[1..], p);
    }
  }

  lemma ColumnsKept(b: Books, tx: Tx, h: nat, index: bool)
    requires TxOk(b, tx) && FormatOk(tx) && ColumnsOk(b)
    ensures ColumnsOk(ApplyTx(b, tx, h, index))
  {
    hide AccountOk, ForumOk, Delta, AddReply, AddMember, PayReply, IsMember;
    var d := ApplyTx(b, tx, h, index);
    forall p | p in d.reg.accounts ensures AccountOk(d, p) {
      AccountKept(b, tx, h, index, p);
    }
    assert AccountOk(b, Payer(tx));
  }

  lemma AccountKept(b: Books, tx: Tx, h: nat, index: bool, p: Pubkey)
    requires TxOk(b, tx) && FormatOk(tx) && ColumnsOk(b)
    requires p in ApplyTx(b, tx, h, index).reg.accounts
    ensures AccountOk(ApplyTx(b, tx, h, index), p)
  {
    hide ForumOk, Delta, AddReply, AddMember, PayReply, IsMember;
    assert p in b.reg.accounts ==> AccountOk(b, p);
  }

  /** A topic stays well formed while ids and accounts only grow. */
  lemma TopicOkMono(b: Books, d: Books, k: Key, t: Topic)
    requires TopicOk(b, k, t)
    requires forall x :: x in b.txMap ==> x in d.txMap && d.txMap[x] == b.txMap[x]
    requires forall p :: p in b.reg.accounts ==> p in d.reg.accounts
    ensures TopicOk(d, k, t)
  {
    forall i | 0 <= i < |t.replies| ensures ReplyOk(d, t.replies[i], t.born) {
      assert ReplyOk(b, t.replies[i], t.born);
    }
    forall i | 0 <= i < |t.members| ensures MemberOk(d, t.members[i], t.born) {
      assert MemberOk(b, t.members[i], t.born);
    }
  }

  lemma Grows(b: Books, tx: Tx, h: nat, index: bool)
    requires TxOk(b, tx) && FormatOk(tx) && ColumnsOk(b)
    ensures forall x :: x in b.txMap ==>
              x in ApplyTx(b, tx, h, index).txMap && ApplyTx(b, tx, h, index).txMap[x] == b.txMap[x]
    ensures forall p :: p in b.reg.accounts ==> p in ApplyTx(b, tx, h, index).reg.accounts
  {
    hide ForumOk, AddReply, AddMember, PayReply, ApplyMoney;
  }

  lemma ReplyTopicOk(d: Books, k: Key, t: Topic, r: Reply)
    requires TopicOk(d, k, t) && ReplyOk(d, r, t.born)
    ensures TopicOk(d, k, AddReply(t, r))
  {
    forall i | 0 <= i < |t.replies + [r]| ensures ReplyOk(d, (t.replies + [r])[i], t.born) {
    }
  }

  lemma PaidTopicOk(d: Books, k: Key, t: Topic, to: Key, v: int)
    requires TopicOk(d, k, t)
    ensures TopicOk(d, k, PayReply(t, to, v)) && PayReply(t, to, v).born == t.born
  {
    var u := PayReply(t, to, v);
    forall i | 0 <= i < |u.replies| ensures ReplyOk(d, u.replies[i], t.born) {
      assert ReplyOk(d, t.replies[i], t.born);
    }
  }

  lemma MemberTopicOk(d: Books, k: Key, t: Topic, txId: Key, who: Pubkey)
    requires TopicOk(d, k, t) && MemberOk(d, Member(txId, who), t.born)
    ensures TopicOk(d, k, AddMember(t, txId, who)) && AddMember(t, txId, who).born == t.born
  {
    var u := AddMember(t, txId, who);
    if !IsMember(t, who) {
      forall i | 0 <= i < |u.members| ensures MemberOk(d, u.members[i], t.born) {
        assert i < |t.members| ==> MemberOk(d, t.members[i], t.born);
      }
    }
  }

  lemma TopicsKept(b: Books, tx: Tx, h: nat, index: bool)
    requires TxOk(b, tx) && FormatOk(tx) && ColumnsOk(b) && TopicsOk(b) && NoneYounger(b.forum, h)
    ensures TopicsOk(ApplyTx(b, tx, h, index))
  {
    var d := ApplyTx(b, tx, h, index);
    forall k | k in d.forum.topics ensures TopicOk(d, k, d.forum.topics[k]) {
      TopicKept(b, tx, h, index, k);
    }
  }

  lemma TopicKept(b: Books, tx: Tx, h: nat, index: bool, k: Key)
    requires TxOk(b, tx) && FormatOk(tx) && ColumnsOk(b) && TopicsOk(b) && NoneYounger(b.forum, h)
    requires k in ApplyForum(b.forum, tx, h).topics
    ensures TopicOk(ApplyTx(b, tx, h, index), k, ApplyForum(b.forum, tx, h).topics[k])
  {
    hide TopicOk, AddReply, AddMember, PayReply, NormalReplyAt, ReplyOwner, ApplyMoney, Delta;
    var d := ApplyTx(b, tx, h, index);
    Grows(b, tx, h, index);
    if k in b.forum.topics {
      TopicOkMono(b, d, k, b.forum.topics[k]);
    }
    if k == Hash(tx) && tx.body.TxTopic? {
      FreshTopicOk(d, tx, h);
    } else if (tx.body.TxReply? || tx.body.TxReward?) && k == tx.body.topicKey {
      TouchedTopicOk(b, tx, h, index);
    }
  }

  lemma FreshTopicOk(d: Books, tx: Tx, h: nat)
    requires Hash(tx) in d.txMap && d.txMap[Hash(tx)] == h && tx.pubkey in d.reg.accounts && tx.body.TxTopic?
    ensures TopicOk(d, Hash(tx), Topic(tx.pubkey, h, tx.body.reward, tx.body.reward, [], []))
  {
  }

  lemma TouchedTopicOk(b: Books, tx: Tx, h: nat, index: bool)
    requires TxOk(b, tx) && FormatOk(tx) && ColumnsOk(b)
    requires (tx.body.TxReply? || tx.body.TxReward?) && b.forum.topics[tx.body.topicKey].born <= h
    requires TopicOk(ApplyTx(b, tx, h, index), tx.body.topicKey, b.forum.topics[tx.body.topicKey])
    ensures TopicOk(ApplyTx(b, tx, h, index), tx.body.topicKey, ApplyForum(b.forum, tx, h).topics[tx.body.topicKey])
  {
    hide TopicOk, AddReply, AddMember, PayReply, NormalReplyAt, ReplyOwner, ApplyMoney, Delta;
    var d := ApplyTx(b, tx, h, index);
    var k := tx.body.topicKey;
    var t := b.forum.topics[k];
    match tx.body
    case TxReply(_, to) =>
      if Joins(b.forum, tx) {
        MemberTopicOk(d, k, t, Hash(tx), tx.pubkey);
        ReplyTopicOk(d, k, AddMember(t, Hash(tx), tx.pubkey), Reply(Hash(tx), false, tx.pubkey, to, 0));
      } else {
        ReplyTopicOk(d, k, t, Reply(Hash(tx), false, tx.pubkey, to, 0));
      }
    case TxReward(_, to, paid) =>
      PaidTopicOk(d, k, t, to, paid);
      ReplyTopicOk(d, k, PayReply(t, to, paid), Reply(Hash(tx), true, tx.pubkey, Some(to), paid));
  }

  lemma JoinedKept(b: Books, tx: Tx, h: nat)
    requires TxOk(b, tx) && FormatOk(tx) && ColumnsOk(b) && JoinedOk(b.forum)
    ensures JoinedOk(ApplyForum(b.forum, tx, h))
  {
    var g := ApplyForum(b.forum, tx, h);
    forall p | p in g.joined ensures JoinedListOk(g, p) {
      JoinedListKept(b, tx, h, p);
    }
  }

  lemma MembersKept(b: Books, tx: Tx, h: nat)
    requires TxOk(b, tx) && FormatOk(tx) && ColumnsOk(b) && MembersOk(b.forum)
    ensures MembersOk(ApplyForum(b.forum, tx, h))
  {
    var g := ApplyForum(b.forum, tx, h);
    forall k, p | k in g.topics && IsMember(g.topics[k], p) ensures k in ListAt(g.joined, p) {
      MemberKept(b, tx, h, k, p);
    }
  }

  lemma MemberKept(b: Books, tx: Tx, h: nat, k: Key, p: Pubkey)
    requires TxOk(b, tx) && FormatOk(tx) && ColumnsOk(b) && MembersOk(b.forum)
    requires k in ApplyForum(b.forum, tx, h).topics && IsMember(ApplyForum(b.forum, tx, h).topics[k], p)
    ensures k in ListAt(ApplyForum(b.forum, tx, h).joined, p)
  {
    MemberBefore(b.forum, tx, h, k, p);
    JoinersGrow(b.forum, tx, h, k, p);
    assert tx.body.TxReg? ==> tx.pubkey !in b.forum.joined;
    hide ApplyForum, IsMember, TxOk, Joins;
  }

  /** A member afterwards was one before or has just joined. */
  lemma MemberBefore(f: Forum, tx: Tx, h: nat, k: Key, p: Pubkey)
    requires k in ApplyForum(f, tx, h).topics && IsMember(ApplyForum(f, tx, h).topics[k], p)
    ensures (k in f.topics && IsMember(f.topics[k], p)) || (Joins(f, tx) && tx.body.topicKey == k && p == tx.pubkey)
  {
    hide FindReply;
    var g := ApplyForum(f, tx, h);
    var i :| 0 <= i < |g.topics[k].members| && g.topics[k].members[i].who == p;
    if k in f.topics && !tx.body.TxTopic? && i < |f.topics[k].members| {
      assert f.topics[k].members[i].who == p;
    }
  }

  lemma JoinersGrow(f: Forum, tx: Tx, h: nat, k: Key, p: Pubkey)
    requires tx.body.TxReg? ==> tx.pubkey !in f.joined
    ensures k in ListAt(f.joined, p) || (Joins(f, tx) && tx.body.topicKey == k && p == tx.pubkey) ==>
              k in ListAt(ApplyForum(f, tx, h).joined, p)
  {
    hide FindReply, AddReply, AddMember, PayReply;
  }

  /** No transaction takes a topic away, and members are only added. */
  lemma MembersGrow(f: Forum, tx: Tx, h: nat, k: Key, p: Pubkey)
    requires ForumOk(f, tx)
    requires k in f.topics && IsMember(f.topics[k], p)
    ensures k in ApplyForum(f, tx, h).topics && IsMember(ApplyForum(f, tx, h).topics[k], p)
  {
    hide FindReply, NormalReplyAt, ReplyOwner;
    var i :| 0 <= i < |f.topics[k].members| && f.topics[k].members[i].who == p;
    assert ApplyForum(f, tx, h).topics[k].members[i].who == p;
  }

  lemma JoinedListKept(b: Books, tx: Tx, h: nat, p: Pubkey)
    requires TxOk(b, tx) && FormatOk(tx) && ColumnsOk(b) && JoinedOk(b.forum)
    requires p in ApplyForum(b.forum, tx, h).joined
    ensures JoinedListOk(ApplyForum(b.forum, tx, h), p)
  {
    hide FeeOk, ForumOk, FeeDelta, FormatOk, ColumnsOk, ApplyForum, IsMember;
    var f := b.forum;
    var g := ApplyForum(f, tx, h);
    assert JoinedListOk(f, p) by {
      assert p in f.joined || ListAt(f.joined, p) == [];
    }
    forall k | k in ListAt(f.joined, p) ensures k in g.topics && IsMember(g.topics[k], p) {
      MembersGrow(f, tx, h, k, p);
    }
    ListAfter(f, tx, h, p);
    if Joins(f, tx) && p == tx.pubkey {
      NewMember(f, tx, h);
    }
  }

  /** What a transaction does to a joined list. */
  lemma ListAfter(f: Forum, tx: Tx, h: nat, p: Pubkey)
    ensures var q := ListAt(ApplyForum(f, tx, h).joined, p);
            if Joins(f, tx) && p == tx.pubkey then q == ListAt(f.joined, p) + [tx.body.topicKey]
            else q == ListAt(f.joined, p) || q == []
  {
    hide FindReply, IsMember, AddMember, PayReply, AddReply;
  }

  lemma NewMember(f: Forum, tx: Tx, h: nat)
    requires Joins(f, tx)
    ensures tx.body.topicKey in ApplyForum(f, tx, h).topics
    ensures IsMember(ApplyForum(f, tx, h).topics[tx.body.topicKey], tx.pubkey)
  {
    var t := f.topics[tx.body.topicKey];
    var u := ApplyForum(f, tx, h).topics[tx.body.topicKey];
    if !IsMember(t, tx.pubkey) {
      assert u.members[|t.members|].who == tx.pubkey;
    } else {
      var i :| 0 <= i < |t.members| && t.members[i].who == tx.pubkey;
      assert u.members[i].who == tx.pubkey;
    }
  }

  lemma QueueTopic(f: Forum, tx: Tx, reward: int, h: nat)
    requires Hash(tx) !in f.topics && tx.pubkey in f.owned && QueueOk(f, h)
    ensures QueueOk(ForumTopic(f, tx, reward, h), h)
  {
    var g := ForumTopic(f, tx, reward, h);
    forall p | p in g.owned ensures g.owned[p] == OwnedBy(g.queue, p) {
      OwnedByAppend(f.queue, Hash(tx), p);
    }
  }

  lemma QueueReg(b: Books, tx: Tx, h: nat)
    requires tx.pubkey !in b.reg.accounts && TopicsOk(b) && QueueOk(b.forum, h)
    ensures QueueOk(ForumReg(b.forum, tx), h)
  {
    var f := b.forum;
    forall k | k in f.queue ensures OwnerOf(k) != tx.pubkey {
      assert TopicOk(b, k, f.topics[k]);
    }
    NotOwned(f.queue, tx.pubkey);
    assert SortedByAge(ForumReg(f, tx)) by { assert SortedByAge(f); }
  }

  /** Replies and rewards change no topic's place, owner or age. */
  lemma QueueSame(f: Forum, g: Forum, h: nat)
    requires QueueOk(f, h)
    requires g.queue == f.queue && g.owned == f.owned && forall k :: k in g.topics <==> k in f.topics
    requires forall k :: k in f.topics ==> g.topics[k].born == f.topics[k].born
    ensures QueueOk(g, h)
  {
    assert SortedByAge(f);
  }

  lemma SameKeys(f: Forum, tx: Tx, h: nat)
    requires !tx.body.TxTopic? && !tx.body.TxReg?
    ensures var g := ApplyForum(f, tx, h);
            && g.queue == f.queue && g.owned == f.owned
            && (forall k :: k in g.topics <==> k in f.topics)
            && forall k :: k in f.topics ==> g.topics[k].born == f.topics[k].born
  {
    hide FindReply, IsMember;
  }

  lemma QueueKept(b: Books, tx: Tx, h: nat)
    requires TxOk(b, tx) && FormatOk(tx) && ColumnsOk(b) && TopicsOk(b) && QueueOk(b.forum, h)
    ensures QueueOk(ApplyForum(b.forum, tx, h), h)
  {
    hide QueueOk, FindReply, NormalReplyAt, ReplyOwner, IsMember, FeeDelta, OwnedBy, TopicOk, TopicsOk, AddReply,
         AddMember, PayReply, Joins;
    var f := b.forum;
    match tx.body
    case TxTopic(reward) =>
      assert AccountOk(b, tx.pubkey);
      QueueTopic(f, tx, reward, h);
    case TxReg(_, _, _) => QueueReg(b, tx, h);
    case _ =>
      SameKeys(f, tx, h);
      QueueSame(f, ApplyForum(f, tx, h), h);
  }

  lemma SoundKept(b: Books, tx: Tx, h: nat, index: bool)
    requires TxOk(b, tx) && FormatOk(tx) && Sound(b, h)
    ensures Sound(ApplyTx(b, tx, h, index), h)
  {
    assert NoneYounger(b.forum, h);
    hide TxOk, FormatOk, ColumnsOk, TopicsOk, QueueOk, ApplyRegistry, ApplyMoney, ApplyForum;
    ColumnsKept(b, tx, h, index);
    TopicsKept(b, tx, h, index);
    QueueKept(b, tx, h);
  }

  lemma LinkedKept(b: Books, tx: Tx, h: nat)
    requires TxOk(b, tx) && FormatOk(tx) && ColumnsOk(b) && Linked(b.forum)
    ensures Linked(ApplyForum(b.forum, tx, h))
  {
    hide TxOk, FormatOk, ColumnsOk, JoinedOk, MembersOk, ApplyForum;
    JoinedKept(b, tx, h);
    MembersKept(b, tx, h);
  }

  /** Every accepted transaction keeps the books in order. */
  lemma InvKept(b: Books, tx: Tx, h: nat, index: bool)
    requires TxOk(b, tx) && FormatOk(tx) && Inv(b, h)
    ensures Inv(ApplyTx(b, tx, h, index), h)
  {
    SoundKept(b, tx, h, index);
    LinkedKept(b, tx, h);
    hide TxOk, FormatOk, ApplyRegistry, ApplyMoney, ApplyForum, TopicsOk, ColumnsOk, QueueOk, Linked;
  }
}
