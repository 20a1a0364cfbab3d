/** The reverse loop meets every intermediate state of the forward loop: UndoTx inverts ApplyTx. */
module Inverse {
  import opened Lists
  import opened Chain
  import opened Books

  /** An account has a balance, an own-topic list and a joined list, its referrer is another account, and
      only account 1 has none. */
  ghost predicate AccountOk(b: Books, p: Pubkey) {
    && p in b.bal && p in b.forum.owned && p in b.forum.joined
    && (Referrer(b.reg, p) == RESERVE || Referrer(b.reg, p) in b.reg.accounts)
    && Referrer(b.reg, p) != p
    && (p in b.reg.accounts && b.reg.accounts[p].referrer.None? ==> b.reg.accounts[p].id <= 1)
  }

  ghost predicate ColumnsOk(b: Books) {
    && RESERVE !in b.reg.accounts
    && RESERVE in b.bal
    && (forall p :: p in b.reg.accounts ==> AccountOk(b, p))
    && (forall p :: p in b.bal ==> p == RESERVE || p in b.reg.accounts)
    && (forall p :: p in b.forum.owned ==> p in b.reg.accounts)
    && (forall p :: p in b.forum.joined ==> p in b.reg.accounts)
    && (forall i :: i in b.reg.byId ==> i <= b.reg.curId)
  }

  /** The id map holds `id` as the id of a transaction of block `born` or later. */
  ghost predicate IdSince(b: Books, id: Key, born: nat) {
    id in b.txMap && b.txMap[id] >= born
  }

  ghost predicate ReplyOk(b: Books, r: Reply, born: nat) {
    IdSince(b, r.key, born) && r.owner in b.reg.accounts
  }

  ghost predicate MemberOk(b: Books, m: Member, born: nat) {
    IdSince(b, m.txId, born) && m.who in b.reg.accounts
  }

  ghost predicate Distinct(ms: seq<Member>) {
    forall i, j :: 0 <= i < j < |ms| ==> ms[i].who != ms[j].who
  }

  /** A topic's key, replies and members were put there by transactions that the id map still holds, the key by
      one of the block the topic was opened in. */
  ghost predicate TopicOk(b: Books, k: Key, t: Topic) {
    && k in b.txMap && b.txMap[k] == t.born
    && t.owner in b.reg.accounts
    && t.owner == OwnerOf(k)
    && (forall i :: 0 <= i < |t.replies| ==> ReplyOk(b, t.replies[i], t.born))
    && (forall i :: 0 <= i < |t.members| ==> MemberOk(b, t.members[i], t.born))
    && Distinct(t.members)
  }

  ghost predicate TopicsOk(b: Books) {
    forall k :: k in b.forum.topics ==> TopicOk(b, k, b.forum.topics[k])
  }

  ghost predicate JoinedListOk(f: Forum, p: Pubkey) {
    NoDup(ListAt(f.joined, p)) && forall k :: k in ListAt(f.joined, p) ==> k in f.topics && IsMember(f.topics[k], p)
  }

  /** A joined list names live topics, each once, and only those that have the account as a member. */
  ghost predicate JoinedOk(f: Forum) {
    forall p :: p in f.joined ==> JoinedListOk(f, p)
  }

  /** The joined list of a member has the topic. */
  ghost predicate MembersOk(f: Forum) {
    forall k, p :: k in f.topics && IsMember(f.topics[k], p) ==> k in ListAt(f.joined, p)
  }

  /** Members and joined lists agree. */
  ghost predicate Linked(f: Forum) {
    JoinedOk(f) && MembersOk(f)
  }

  lemma UndoApplyRegistry(reg: Registry, tx: Tx, h: nat, index: bool)
    requires tx.body.TxReg? ==> tx.pubkey !in reg.accounts && tx.body.name !in reg.names && reg.curId + 1 !in reg.byId
    ensures UndoRegistry(ApplyRegistry(reg, tx, h, index), tx, index) == reg
  {
    var e := UndoRegistry(ApplyRegistry(reg, tx, h, index), tx, index);
    assert e.accounts == reg.accounts;
    assert e.names == reg.names;
    assert e.byId == reg.byId;
  }

  /** The payee and the referrer are found to be the same accounts when the transaction is undone. */
  lemma SameDelta(b: Books, tx: Tx, h: nat, index: bool)
    requires tx.body.TxReg? ==> tx.pubkey != Payer(tx)
    ensures Referrer(ApplyRegistry(b.reg, tx, h, index), Payer(tx)) == Referrer(b.reg, Payer(tx))
    ensures PaidTo(ApplyForum(b.forum, tx, h), tx) == PaidTo(b.forum, tx)
  {
    if tx.body.TxReward? && tx.body.topicKey in b.forum.topics {
      var t := b.forum.topics[tx.body.topicKey];
      RewardKeeps(t, tx.body.toReply, tx.body.paid,
                  Reply(Hash(tx), true, tx.pubkey, Some(tx.body.toReply), tx.body.paid));
    }
  }

  lemma UndoApplyMoney(b: Books, tx: Tx, h: nat, index: bool)
    requires tx.body.TxReg? ==> tx.pubkey !in b.bal && tx.pubkey != Payer(tx)
    ensures UndoMoney(ApplyTx(b, tx, h, index), tx) == b.bal
  {
    hide ApplyRegistry, ApplyForum, PaidTo, Referrer, FeeDelta, BodyDelta;
    SameDelta(b, tx, h, index);
    var e := UndoMoney(ApplyTx(b, tx, h, index), tx);
    assert e.Keys == b.bal.Keys;
  }

  /** A rewarded reply is still the first with its key, and still normal, once the reward is appended. */
  lemma RewardKeeps(t: Topic, to: Key, v: int, r: Reply)
    requires r.key != to
    ensures ReplyOwner(AddReply(PayReply(t, to, v), r), to) == ReplyOwner(t, to)
    ensures NormalReplyAt(t, to) ==> DropReply(PayReply(AddReply(PayReply(t, to, v), r), to, 0 - v)) == t
  {
    var i := FindReply(t.replies, to);
    var u := AddReply(PayReply(t, to, v), r);
    assert forall j :: 0 <= j < |t.replies| ==>
                         u.replies[j].key == t.replies[j].key && u.replies[j].owner == t.replies[j].owner;
    var j := FindReply(u.replies, to);
    assert i < |t.replies| ==> u.replies[i].key == to;
    assert j < |t.replies| ==> t.replies[j].key == to;
    if i < |t.replies| {
      assert j == i;
      assert DropReply(PayReply(u, to, 0 - v)).replies == t.replies;
    }
  }

  lemma UndoReply(f: Forum, tx: Tx, k: Key, to: Option<Key>)
    requires tx.body.TxReply? && tx.body.topicKey == k && k in f.topics && tx.pubkey in f.joined
    requires forall i :: 0 <= i < |f.topics[k].members| ==> f.topics[k].members[i].txId != Hash(tx)
    requires Joins(f, tx) ==> !IsMember(f.topics[k], tx.pubkey)
    ensures UnReply(ForumReply(f, tx, k, to), tx, k) == f
  {
    var t := f.topics[k];
    var r := Reply(Hash(tx), false, tx.pubkey, to, 0);
    var e := UnReply(ForumReply(f, tx, k, to), tx, k);
    assert DropLast(t.replies + [r]) == t.replies;
    assert DropLast(t.members + [Member(Hash(tx), tx.pubkey)]) == t.members;
    assert e.joined == f.joined;
    assert e.topics == f.topics;
  }

  lemma UndoTopic(f: Forum, tx: Tx, reward: int, h: nat)
    requires Hash(tx) !in f.topics && tx.pubkey in f.owned
    ensures UnTopic(ForumTopic(f, tx, reward, h), tx) == f
  {
    var e := UnTopic(ForumTopic(f, tx, reward, h), tx);
    assert e.topics == f.topics;
    assert e.queue == f.queue;
    assert e.owned == f.owned;
  }

  lemma UndoReward(f: Forum, tx: Tx, k: Key, to: Key, paid: int)
    requires k in f.topics && NormalReplyAt(f.topics[k], to) && to != Hash(tx)
    ensures UnReward(ForumReward(f, tx, k, to, paid), tx, k, to, paid) == f
  {
    RewardKeeps(f.topics[k], to, paid, Reply(Hash(tx), true, tx.pubkey, Some(to), paid));
    assert UnReward(ForumReward(f, tx, k, to, paid), tx, k, to, paid).topics == f.topics;
  }

  lemma UndoApplyForum(b: Books, tx: Tx, h: nat)
    requires TxOk(b, tx) && FormatOk(tx) && ColumnsOk(b) && TopicsOk(b) && MembersOk(b.forum)
    ensures UndoForum(ApplyForum(b.forum, tx, h), tx) == b.forum
  {
    hide UnReply, ForumReply, UnTopic, ForumTopic, UnReward, ForumReward, TopicOk;
    var f := b.forum;
    match tx.body
    case TxReg(_, _, _) =>
      assert UnReg(ForumReg(f, tx), tx).owned == f.owned;
      assert UnReg(ForumReg(f, tx), tx).joined == f.joined;
    case TxSend(_, _) =>
    case TxTopic(reward) =>
      assert AccountOk(b, tx.pubkey);
      UndoTopic(f, tx, reward, h);
    case TxReply(k, to) =>
      FreshMember(b, tx, k);
      UndoReply(f, tx, k, to);
    case TxReward(k, to, paid) =>
      UndoReward(f, tx, k, to, paid);
  }

  /** A reply that is applied now has an id no member entry carries, and a newcomer is no member yet. */
  lemma FreshMember(b: Books, tx: Tx, k: Key)
    requires tx.body.TxReply? && tx.body.topicKey == k && k in b.forum.topics
    requires FeeOk(b, tx) && ColumnsOk(b) && TopicsOk(b) && MembersOk(b.forum)
    ensures tx.pubkey in b.forum.joined
    ensures forall i :: 0 <= i < |b.forum.topics[k].members| ==> b.forum.topics[k].members[i].txId != Hash(tx)
    ensures Joins(b.forum, tx) ==> !IsMember(b.forum.topics[k], tx.pubkey)
  {
    assert AccountOk(b, tx.pubkey);
    assert TopicOk(b, k, b.forum.topics[k]);
    assert forall i :: 0 <= i < |b.forum.topics[k].members| ==>
                         MemberOk(b, b.forum.topics[k].members[i], b.forum.topics[k].born);
  }

  lemma UndoApply(b: Books, tx: Tx, h: nat, index: bool)
    requires TxOk(b, tx) && FormatOk(tx) && ColumnsOk(b) && TopicsOk(b) && MembersOk(b.forum)
    ensures UndoTx(ApplyTx(b, tx, h, index), tx, index) == b
  {
    hide ApplyRegistry, UndoRegistry, ApplyMoney, UndoMoney, ApplyForum, UndoForum, TopicsOk, MembersOk, ForumOk;
    UndoApplyForum(b, tx, h);
    assert tx.body.TxReg? ==> tx.pubkey !in b.bal && tx.pubkey != Payer(tx);
    UndoApplyRegistry(b.reg, tx, h, index);
    UndoApplyMoney(b, tx, h, index);
    assert (b.txMap[Hash(tx) := h]) - {Hash(tx)} == b.txMap;
  }
}
