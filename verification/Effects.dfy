/** What each transaction, the miner's pay and expiry change, party by party and list by list, and when each transaction
    and each block is accepted: written out with the numbers of the source, without the functions that compute it. */
module Effects {
  import opened Lists
  import opened Chain
  import opened Books
  import opened Inverse
  import opened Invariant
  import opened Expiry
  import opened Blocks
  import opened Replayed
  import opened Conservation

  /** `r` gets the referrer's coin of a fee that `payer` pays: it registered the payer, or it is the reserve fund when
      nobody did. */
  ghost predicate Invited(reg: Registry, payer: Pubkey, r: Pubkey) {
    payer in reg.accounts &&
    match reg.accounts[payer].referrer
    case Some(who) => r == who
    case None => r == NoKey
  }

  function Credit(m: Balances, who: Pubkey, v: int): Balances
    requires who in m
  {
    m[who := m[who] + v]
  }

  /** The fee: two coins from the payer, one of them to the referrer; the miner gets the other with the block. */
  function Fee(m: Balances, payer: Pubkey, r: Pubkey): Balances
    requires payer in m && r in m
  {
    Credit(Credit(m, payer, -2), r, 1)
  }

  /** The formats and the checks that all types share; `payer` needs `coins` besides the fee. */
  ghost predicate Shared(b: Books, tx: Tx, payer: Pubkey, coins: nat) {
    && tx.pubkey != NoKey && tx.blockId > 0 && tx.fee == 2
    && Hash(tx) !in b.txMap
    && payer in b.reg.accounts && payer in b.bal && b.bal[payer] >= 2 + coins
  }

  // ---- The fee

  lemma InvitedIs(b: Books, h: nat, payer: Pubkey, r: Pubkey)
    requires Sound(b, h) && Invited(b.reg, payer, r)
    ensures Referrer(b.reg, payer) == r != payer && payer in b.bal && r in b.bal && payer != RESERVE
    ensures b.reg.accounts[payer].referrer.None? ==> b.reg.accounts[payer].id <= 1
  {
    hide TopicsOk, QueueOk;
    assert AccountOk(b, payer);
    if r != RESERVE {
      assert AccountOk(b, r);
    }
  }

  lemma InvitedSome(reg: Registry, payer: Pubkey) returns (r: Pubkey)
    requires payer in reg.accounts
    ensures Invited(reg, payer, r)
  {
    r := match reg.accounts[payer].referrer case Some(who) => who case None => NoKey;
  }

  /** The checks before the fee, with the funds for `coins` more. */
  lemma SharedIff(b: Books, h: nat, tx: Tx, payer: Pubkey, coins: nat)
    requires Sound(b, h) && payer == Payer(tx) && Spent(tx) == coins
    requires tx.body.TxReg? ==> tx.pubkey !in b.reg.accounts && tx.body.name !in b.reg.names
    ensures Shared(b, tx, payer, coins) <==>
              && tx.pubkey.Pub? && tx.blockId != 0 && tx.fee == 2 && FeeOk(b, tx)
              && b.bal[payer] + FeeDelta(payer, Referrer(b.reg, payer), payer) >= coins
  {
    hide Sound, Referrer;
    if payer in b.reg.accounts {
      var r := InvitedSome(b.reg, payer);
      InvitedIs(b, h, payer, r);
    }
  }

  // ---- Registration

  /** A registration is accepted exactly when the inviting account is known and has the fee, the key and the name are
      new, the name has 4 to 20 characters and the avatar is 1 to 100. */
  lemma RegisterAccepted(b: Books, tx: Tx, h: nat)
    requires Sound(b, h) && tx.body.TxReg?
    ensures TxOk(b, tx) && FormatOk(tx) <==>
              && Shared(b, tx, tx.body.referrer, 0)
              && 4 <= |tx.body.name.base64| <= 20 && 1 <= tx.body.avatar <= 100
              && tx.pubkey !in b.reg.accounts && tx.body.name !in b.reg.names
  {
    hide Sound, FeeDelta, Shared;
    if tx.pubkey !in b.reg.accounts && tx.body.name !in b.reg.names {
      SharedIff(b, h, tx, tx.body.referrer, 0);
    }
  }

  /** The inviting account pays, and its own referrer gets the coin; the new account has the next id and no coins. */
  lemma RegisterEffect(b: Books, tx: Tx, h: nat, index: bool, r: Pubkey)
    requires Sound(b, h) && TxOk(b, tx) && FormatOk(tx) && tx.body.TxReg? && Invited(b.reg, tx.body.referrer, r)
    ensures tx.body.referrer in b.bal && r in b.bal && r != tx.body.referrer
    ensures var d, id := ApplyTx(b, tx, h, index), b.reg.curId + 1;
            && d.bal == Fee(b.bal, tx.body.referrer, r)[tx.pubkey := 0]
            && d.reg.accounts == b.reg.accounts[tx.pubkey :=
                                   Account(id, tx.body.name, tx.body.avatar, h, Some(tx.body.referrer))]
            && d.reg.names == b.reg.names + {tx.body.name} && d.reg.curId == id
            && d.reg.byId == (if index then b.reg.byId[id := tx.pubkey] else b.reg.byId)
            && d.forum == b.forum.(owned := b.forum.owned[tx.pubkey := []], joined := b.forum.joined[tx.pubkey := []])
            && d.txMap == b.txMap[Hash(tx) := h]
  {
    hide Sound, TxOk, FormatOk, Referrer;
    InvitedIs(b, h, tx.body.referrer, r);
    assert ApplyTx(b, tx, h, index).bal == Fee(b.bal, tx.body.referrer, r)[tx.pubkey := 0];
  }

  // ---- Sending

  /** A send is accepted exactly when the sender has the fee and the amount, which is not zero, and the receiver
      exists. */
  lemma SendAccepted(b: Books, tx: Tx, h: nat)
    requires Sound(b, h) && tx.body.TxSend?
    ensures TxOk(b, tx) && FormatOk(tx) <==>
              && Shared(b, tx, tx.pubkey, tx.body.amount) && tx.body.amount > 0
              && tx.body.receiver in b.reg.accounts
  {
    hide Sound, FeeDelta, Shared;
    SharedIff(b, h, tx, tx.pubkey, tx.body.amount);
  }

  /** The whole amount leaves the sender and reaches the receiver. */
  lemma SendEffect(b: Books, tx: Tx, h: nat, index: bool, r: Pubkey)
    requires Sound(b, h) && TxOk(b, tx) && FormatOk(tx) && tx.body.TxSend? && Invited(b.reg, tx.pubkey, r)
    ensures tx.pubkey in b.bal && r in b.bal && r != tx.pubkey && tx.body.receiver in b.bal
    ensures var d := ApplyTx(b, tx, h, index);
            && d.bal == Credit(Credit(Fee(b.bal, tx.pubkey, r), tx.pubkey, 0 - tx.body.amount), tx.body.receiver,
                               tx.body.amount)
            && d.reg == b.reg && d.forum == b.forum
            && d.txMap == b.txMap[Hash(tx) := h]
  {
    hide Sound, FormatOk, Referrer, ForumOk;
    InvitedIs(b, h, tx.pubkey, r);
    var receiver := InvitedSome(b.reg, tx.body.receiver);
    InvitedIs(b, h, tx.body.receiver, receiver);
    hide TxOk;
    assert ApplyTx(b, tx, h, index).bal
           == Credit(Credit(Fee(b.bal, tx.pubkey, r), tx.pubkey, 0 - tx.body.amount), tx.body.receiver, tx.body.amount);
  }

  // ---- Topics

  /** A topic is accepted exactly when its author has the fee and the reward, which is not zero, and fewer than 100 live
      topics. */
  lemma TopicAccepted(b: Books, tx: Tx, h: nat)
    requires Sound(b, h) && tx.body.TxTopic?
    ensures TxOk(b, tx) && FormatOk(tx) <==>
              && Shared(b, tx, tx.pubkey, tx.body.reward) && tx.body.reward > 0
              && |OwnedBy(b.forum.queue, tx.pubkey)| < 100
  {
    hide Sound, FeeDelta, Shared, OwnedBy;
    SharedIff(b, h, tx, tx.pubkey, tx.body.reward);
    TopicsHeld(b, h, tx);
    hide FeeOk;
  }

  lemma TopicsHeld(b: Books, h: nat, tx: Tx)
    requires Sound(b, h)
    ensures Hash(tx) !in b.txMap ==> Hash(tx) !in b.forum.topics
    ensures tx.pubkey in b.reg.accounts ==>
              tx.pubkey in b.forum.owned && b.forum.owned[tx.pubkey] == OwnedBy(b.forum.queue, tx.pubkey)
    ensures FeeOk(b, tx) ==> Hash(tx) !in b.txMap && (!tx.body.TxReg? ==> tx.pubkey in b.reg.accounts)
    ensures Shared(b, tx, tx.pubkey, 0) ==> Hash(tx) !in b.txMap && tx.pubkey in b.reg.accounts
  {
    if Hash(tx) in b.forum.topics {
      assert TopicOk(b, Hash(tx), b.forum.topics[Hash(tx)]);
    }
    if tx.pubkey in b.reg.accounts {
      assert AccountOk(b, tx.pubkey);
    }
  }

  /** The reward goes to the topic, which is the youngest of the queue and of its author's own list. */
  lemma TopicEffect(b: Books, tx: Tx, h: nat, index: bool, r: Pubkey)
    requires Sound(b, h) && TxOk(b, tx) && FormatOk(tx) && tx.body.TxTopic? && Invited(b.reg, tx.pubkey, r)
    ensures tx.pubkey in b.bal && r in b.bal && r != tx.pubkey && tx.pubkey in b.forum.owned
    ensures var d := ApplyTx(b, tx, h, index);
            && d.bal == Credit(Fee(b.bal, tx.pubkey, r), tx.pubkey, 0 - tx.body.reward)
            && d.reg == b.reg
            && d.forum.topics
               == b.forum.topics[Hash(tx) := Topic(tx.pubkey, h, tx.body.reward, tx.body.reward, [], [])]
            && d.forum.queue == b.forum.queue + [Hash(tx)]
            && d.forum.owned == b.forum.owned[tx.pubkey := b.forum.owned[tx.pubkey] + [Hash(tx)]]
            && d.forum.joined == b.forum.joined
            && d.txMap == b.txMap[Hash(tx) := h]
  {
    hide Sound, TxOk, FormatOk, Referrer, OwnedBy;
    InvitedIs(b, h, tx.pubkey, r);
    TopicsHeld(b, h, tx);
    assert ApplyTx(b, tx, h, index).bal == Credit(Fee(b.bal, tx.pubkey, r), tx.pubkey, 0 - tx.body.reward);
  }

  // ---- Replies

  /** The first reply with the key, if there is one, is normal. */
  ghost predicate NormalFirst(rs: seq<Reply>, key: Key, i: nat) {
    i < |rs| && rs[i].key == key && !rs[i].reward && forall j :: 0 <= j < i ==> rs[j].key != key
  }

  lemma NormalIs(t: Topic, key: Key)
    ensures NormalReplyAt(t, key) <==> exists i: nat :: NormalFirst(t.replies, key, i)
    ensures forall i: nat :: NormalFirst(t.replies, key, i) ==>
              i == FindReply(t.replies, key) && ReplyOwner(t, key) == t.replies[i].owner
  {
    var n := FindReply(t.replies, key);
    assert NormalReplyAt(t, key) ==> NormalFirst(t.replies, key, n);
    forall i: nat | NormalFirst(t.replies, key, i) ensures i == n {
    }
  }

  /** A reply makes its author a newcomer when the topic is another account's and not in the author's joined list. */
  ghost predicate Newcomer(f: Forum, k: Key, who: Pubkey) {
    k in f.topics && f.topics[k].owner != who && (who !in f.joined || k !in f.joined[who])
  }

  ghost predicate NobodyIs(ms: seq<Member>, who: Pubkey) {
    forall m :: m in ms ==> m.who != who
  }

  /** A reply is accepted exactly when its author has the fee, the topic is live and has fewer than 1000 replies,
      what it answers is a normal reply of the topic, and a newcomer has joined fewer than 100 topics. */
  lemma ReplyAccepted(b: Books, tx: Tx, h: nat)
    requires Sound(b, h) && tx.body.TxReply?
    ensures TxOk(b, tx) && FormatOk(tx) <==>
              && Shared(b, tx, tx.pubkey, 0)
              && tx.body.topicKey in b.forum.topics && |b.forum.topics[tx.body.topicKey].replies| < 1000
              && (tx.body.replyTo.Some? ==>
                    exists i: nat :: NormalFirst(b.forum.topics[tx.body.topicKey].replies, tx.body.replyTo.value, i))
              && (Newcomer(b.forum, tx.body.topicKey, tx.pubkey) ==> |ListAt(b.forum.joined, tx.pubkey)| < 100)
  {
    hide Sound, FeeDelta, Shared, FindReply, NormalReplyAt, NormalFirst;
    SharedIff(b, h, tx, tx.pubkey, 0);
    if tx.body.topicKey in b.forum.topics && tx.body.replyTo.Some? {
      NormalIs(b.forum.topics[tx.body.topicKey], tx.body.replyTo.value);
    }
    hide FeeOk;
  }

  /** The reply is the last of its topic; a newcomer becomes the last member, unless it is one, and joins the topic
      last. */
  lemma ReplyEffect(b: Books, tx: Tx, h: nat, index: bool, r: Pubkey)
    requires Sound(b, h) && TxOk(b, tx) && FormatOk(tx) && tx.body.TxReply? && Invited(b.reg, tx.pubkey, r)
    ensures tx.pubkey in b.bal && r in b.bal && r != tx.pubkey && tx.pubkey in b.forum.joined
    ensures tx.body.topicKey in b.forum.topics
    ensures var d, k := ApplyTx(b, tx, h, index), tx.body.topicKey;
            var t, comes := b.forum.topics[k], Newcomer(b.forum, k, tx.pubkey);
            && d.bal == Fee(b.bal, tx.pubkey, r)
            && d.reg == b.reg
            && d.forum.topics
               == b.forum.topics[k := Topic(t.owner, t.born, t.total, t.balance,
                                            t.replies + [Reply(Hash(tx), false, tx.pubkey, tx.body.replyTo, 0)],
                                            t.members + if comes && NobodyIs(t.members, tx.pubkey)
                                                        then [Member(Hash(tx), tx.pubkey)] else [])]
            && d.forum.queue == b.forum.queue && d.forum.owned == b.forum.owned
            && d.forum.joined == b.forum.joined[tx.pubkey := b.forum.joined[tx.pubkey] + if comes then [k] else []]
            && d.txMap == b.txMap[Hash(tx) := h]
  {
    hide Sound, TxOk, FormatOk, Referrer, Invited, ForumReply, ApplyMoney, Newcomer;
    ReplyKnown(b, tx, h);
    InvitedIs(b, h, tx.pubkey, r);
    RepliedForum(b.forum, tx, tx.body.topicKey, tx.body.replyTo);
    RepliedMoney(b, tx, r);
  }

  lemma ReplyKnown(b: Books, tx: Tx, h: nat)
    requires Sound(b, h) && TxOk(b, tx) && tx.body.TxReply?
    ensures tx.body.topicKey in b.forum.topics && tx.pubkey in b.forum.joined
  {
    hide TopicsOk, QueueOk, NormalReplyAt;
    assert AccountOk(b, tx.pubkey);
  }

  lemma RepliedMoney(b: Books, tx: Tx, r: Pubkey)
    requires tx.body.TxReply? && Referrer(b.reg, tx.pubkey) == r != tx.pubkey && tx.pubkey in b.bal && r in b.bal
    ensures ApplyMoney(b, tx) == Fee(b.bal, tx.pubkey, r)
  {
    hide Referrer;
  }

  lemma RepliedForum(f: Forum, tx: Tx, k: Key, to: Option<Key>)
    requires tx.body == TxReply(k, to) && k in f.topics && tx.pubkey in f.joined
    ensures var g, t, comes := ForumReply(f, tx, k, to), f.topics[k], Newcomer(f, k, tx.pubkey);
            && g.topics == f.topics[k := Topic(t.owner, t.born, t.total, t.balance,
                                               t.replies + [Reply(Hash(tx), false, tx.pubkey, to, 0)],
                                               t.members + if comes && NobodyIs(t.members, tx.pubkey)
                                                           then [Member(Hash(tx), tx.pubkey)] else [])]
            && g.queue == f.queue && g.owned == f.owned
            && g.joined == f.joined[tx.pubkey := f.joined[tx.pubkey] + if comes then [k] else []]
  {
    var t := f.topics[k];
    assert IsMember(t, tx.pubkey) <==> exists m :: m in t.members && m.who == tx.pubkey;
    assert t.members + [] == t.members;
    assert f.joined[tx.pubkey] + [] == f.joined[tx.pubkey];
  }

  // ---- Rewards

  /** A reward is accepted exactly when the sender has the fee, owns the live topic, which has fewer than 1000
      replies and the coins to pay, and the rewarded reply is a normal one of somebody else. */
  lemma RewardAccepted(b: Books, tx: Tx, h: nat)
    requires Sound(b, h) && tx.body.TxReward?
    ensures TxOk(b, tx) && FormatOk(tx) <==>
              && Shared(b, tx, tx.pubkey, 0) && tx.body.paid > 0
              && tx.body.topicKey in b.forum.topics
              && var t := b.forum.topics[tx.body.topicKey];
                 && t.owner == tx.pubkey && |t.replies| < 1000 && t.balance >= tx.body.paid
                 && exists i: nat :: NormalFirst(t.replies, tx.body.toReply, i) && t.replies[i].owner != tx.pubkey
  {
    hide Sound, FeeDelta, Shared, FindReply, NormalReplyAt, ReplyOwner, NormalFirst;
    SharedIff(b, h, tx, tx.pubkey, 0);
    if tx.body.topicKey in b.forum.topics {
      NormalIs(b.forum.topics[tx.body.topicKey], tx.body.toReply);
    }
    hide FeeOk;
  }

  /** The coins leave the topic and reach the reply and its author; the reward is itself the last reply. */
  lemma RewardEffect(b: Books, tx: Tx, h: nat, index: bool, r: Pubkey, i: nat)
    requires Sound(b, h) && TxOk(b, tx) && FormatOk(tx) && tx.body.TxReward? && Invited(b.reg, tx.pubkey, r)
    requires tx.body.topicKey in b.forum.topics
    requires NormalFirst(b.forum.topics[tx.body.topicKey].replies, tx.body.toReply, i)
    ensures tx.pubkey in b.bal && r in b.bal && r != tx.pubkey
    ensures b.forum.topics[tx.body.topicKey].replies[i].owner in b.bal
    ensures var d, k, v := ApplyTx(b, tx, h, index), tx.body.topicKey, tx.body.paid;
            var t := b.forum.topics[k];
            var paid := t.replies[i];
            && d.bal == Credit(Fee(b.bal, tx.pubkey, r), paid.owner, v)
            && d.reg == b.reg
            && d.forum == b.forum.(topics := b.forum.topics[k :=
                 Topic(t.owner, t.born, t.total, t.balance - v,
                       t.replies[i := Reply(paid.key, false, paid.owner, paid.to, paid.balance + v)]
                       + [Reply(Hash(tx), true, tx.pubkey, Some(tx.body.toReply), v)],
                       t.members)])
            && d.txMap == b.txMap[Hash(tx) := h]
  {
    hide Sound, TxOk, FormatOk, Referrer, FindReply, ReplyOwner, NormalReplyAt, ApplyMoney, ForumReward, NormalFirst,
         Invited;
    NormalMeans(b.forum.topics[tx.body.topicKey].replies, tx.body.toReply, i);
    InvitedIs(b, h, tx.pubkey, r);
    var t := b.forum.topics[tx.body.topicKey];
    NormalIs(t, tx.body.toReply);
    OwnerHasBalance(b, h, tx.body.topicKey, i);
    RewardedMoney(b, tx, r, i);
    RewardedForum(b.forum, tx, tx.body.topicKey, tx.body.toReply, tx.body.paid, i);
  }

  lemma NormalMeans(rs: seq<Reply>, key: Key, i: nat)
    requires NormalFirst(rs, key, i)
    ensures i < |rs|
  {
  }

  lemma RewardedForum(f: Forum, tx: Tx, k: Key, to: Key, v: int, i: nat)
    requires k in f.topics && NormalFirst(f.topics[k].replies, to, i)
    ensures var t := f.topics[k];
            var paid := t.replies[i];
            ForumReward(f, tx, k, to, v) == f.(topics := f.topics[k :=
              Topic(t.owner, t.born, t.total, t.balance - v,
                    t.replies[i := Reply(paid.key, false, paid.owner, paid.to, paid.balance + v)]
                    + [Reply(Hash(tx), true, tx.pubkey, Some(to), v)],
                    t.members)])
  {
    NormalIs(f.topics[k], to);
  }

  lemma OwnerHasBalance(b: Books, h: nat, k: Key, i: nat)
    requires Sound(b, h) && k in b.forum.topics && i < |b.forum.topics[k].replies|
    ensures b.forum.topics[k].replies[i].owner in b.bal
  {
    hide QueueOk;
    assert TopicOk(b, k, b.forum.topics[k]);
    assert ReplyOk(b, b.forum.topics[k].replies[i], b.forum.topics[k].born);
    assert AccountOk(b, b.forum.topics[k].replies[i].owner);
  }

  lemma RewardedMoney(b: Books, tx: Tx, r: Pubkey, i: nat)
    requires tx.body.TxReward? && Referrer(b.reg, tx.pubkey) == r != tx.pubkey && tx.pubkey in b.bal && r in b.bal
    requires tx.body.topicKey in b.forum.topics && i < |b.forum.topics[tx.body.topicKey].replies|
    requires ReplyOwner(b.forum.topics[tx.body.topicKey], tx.body.toReply)
             == b.forum.topics[tx.body.topicKey].replies[i].owner
    requires b.forum.topics[tx.body.topicKey].replies[i].owner in b.bal
    ensures ApplyMoney(b, tx)
            == Credit(Fee(b.bal, tx.pubkey, r), b.forum.topics[tx.body.topicKey].replies[i].owner, tx.body.paid)
  {
    hide Referrer, ReplyOwner;
  }

  // ---- Blocks

  /** The seconds between a block and its parent; 0 for the genesis block, which is of second 1518926400. */
  ghost function Gap(b: Block): int {
    match b
    case Genesis => 0
    case Block(Genesis, _, utc, _, _) => utc - 1518926400
    case Block(Block(_, _, before, _, _), _, utc, _, _) => utc - before
  }

  /** A header is right exactly when its zero bits are one more than the parent's, the same, or one less but not
      below one, as the parent was found within 10 seconds, within 30, or later, lie between 1 and 255, and it is not
      older than its parent. */
  lemma HeaderAccepted(b: Block)
    ensures HeaderOk(b) <==>
              && b.Block?
              && (Gap(b.parent) < 10 ==> b.zeroBits == ZeroBits(b.parent) + 1)
              && (10 <= Gap(b.parent) <= 30 ==> b.zeroBits == ZeroBits(b.parent))
              && (Gap(b.parent) > 30 ==> b.zeroBits == if ZeroBits(b.parent) > 1 then ZeroBits(b.parent) - 1 else 1)
              && 1 <= b.zeroBits <= 255 && Gap(b) >= 0
  {
    if b.Block? {
      GapIs(b);
      GapIs(b.parent);
    }
  }

  lemma GapIs(b: Block)
    ensures Gap(b) == UtcDiff(b)
    ensures b.Block? ==> Gap(b) == Utc(b) - Utc(b.parent)
  {
  }

  /** Each transaction of a block passes the checks on top of those before it. */
  lemma {:induction false} EachFits(b: Books, txs: seq<Tx>, h: nat, index: bool)
    ensures TxsFit(b, txs, h, index) <==>
              forall i :: 0 <= i < |txs| ==> FormatOk(txs[i]) && TxOk(ApplyTxs(b, txs[..i], h, index), txs[i])
    decreases |txs|
  {
    hide FormatOk, TxOk, ApplyTxs;
    if txs != [] {
      var init := txs[..|txs| - 1];
      EachFits(b, init, h, index);
      assert forall i :: 0 <= i < |init| ==> init[i] == txs[i] && init[..i] == txs[..i];
    }
  }

  /** A block is accepted exactly when it is on top of the current one, its header is right, it has at most 2000
      transactions, its miner is registered, and each transaction names a block at most 100 away and passes the checks
      on top of those before it. */
  lemma BlockAccepted(s: State, b: Block)
    requires SoundBoundary(s)
    ensures BlockOk(s, b) <==>
              && b.Block? && b.parent == s.cur && HeaderOk(b)
              && |b.txs| <= 2000 && b.miner in s.books.reg.accounts
              && forall i :: 0 <= i < |b.txs| ==>
                   && -100 <= b.txs[i].blockId - Height(b) <= 100
                   && FormatOk(b.txs[i]) && TxOk(ApplyTxs(NextBooks(s), b.txs[..i], Height(b), true), b.txs[i])
  {
    hide SoundBoundary, FormatOk, TxOk, ApplyTxs, HeaderOk, Sound, FreshIds, IdMap, TopicIds, LiveFrom, PrepareOk,
         PrepareBooks, TxsFit;
    if b.Block? && b.parent == s.cur {
      PrepareSound(s);
      EachFits(NextBooks(s), b.txs, Height(b), true);
    }
  }

  /** The miner gets one coin for each transaction, and 5000 more out of the reserve fund when it has them after the
      transactions, which is recorded; nobody else's balance changes. */
  lemma MinerEffect(s: State, b: Block)
    requires SoundBoundary(s) && BlockOk(s, b)
    ensures var x, d := ApplyTxs(NextBooks(s), b.txs, Height(b), true).bal, ApplyBlock(s, b);
            && NoKey in x && b.miner in x && b.miner != NoKey
            && d.books.bal == (if x[NoKey] >= 5000
                               then x[b.miner := x[b.miner] + |b.txs| + 5000][NoKey := x[NoKey] - 5000]
                               else x[b.miner := x[b.miner] + |b.txs|])
            && b in d.rewarded && (d.rewarded[b] <==> x[NoKey] >= 5000)
  {
    hide SoundBoundary, BlockOk, ApplyTxs, NextBooks, Sound, PayMiner, Rewards, ApplyBlock, PrepareOk;
    OnTop(s, b);
    BlockParts(s, b);
    Marked(s, b);
    MinerStands(s, b);
    PaidBalances(ApplyTxs(NextBooks(s), b.txs, Height(b), true).bal, b.miner, |b.txs|);
  }

  lemma MinerStands(s: State, b: Block)
    requires SoundBoundary(s) && BlockOk(s, b) && b.Block?
    ensures var x := ApplyTxs(NextBooks(s), b.txs, Height(b), true).bal;
            NoKey in x && b.miner in x && b.miner != NoKey
  {
    hide SoundBoundary, BlockOk, ApplyTxs, NextBooks, Sound, TxsFit, LiveFrom, FreshIds, IdMap, TopicIds, PrepareOk,
         ApplyBlock, BlockBooks, NoDup, Ids, AtHeight, Opened;
    var p, h := NextBooks(s), Height(b);
    BlockParts(s, b);
    ParentOf(s, b);
    PrepareSound(s);
    MinerHasBalance(p, b.txs, h, Oldest(h), b.miner);
    TxsSound(p, b.txs, h, true, Oldest(h));
    HasReserve(ApplyTxs(p, b.txs, h, true), h);
    NotFund(p, h, b.miner);
  }

  lemma NotFund(b: Books, h: nat, who: Pubkey)
    requires Sound(b, h) && who in b.reg.accounts
    ensures who != NoKey
  {
  }

  lemma Marked(s: State, b: Block)
    requires b.Block? && b.parent == s.cur
    ensures ApplyBlock(s, b).rewarded == s.rewarded[b := Rewards(ApplyTxs(NextBooks(s), b.txs, Height(b), true).bal)]
  {
    hide PrepareBooks, ApplyTxs, BlockBooks, Rewards, LogTopics, LogTxs, LeavingIds;
  }

  lemma PaidBalances(m: Balances, miner: Pubkey, n: nat)
    requires miner in m && NoKey in m && miner != NoKey
    ensures PayMiner(m, miner, n) == (if m[NoKey] >= 5000 then m[miner := m[miner] + n + 5000][NoKey := m[NoKey] - 5000]
                                      else m[miner := m[miner] + n])
    ensures Rewards(m) <==> m[NoKey] >= 5000
  {
  }

  /** The ids of the blocks from height `hi` on are those of a wider map with at least that height. */
  lemma {:induction false} IdMapCut(b: Block, lo: int, hi: int)
    requires lo <= hi && FreshIds(b, lo)
    ensures forall k :: k in IdMap(b, hi) <==> k in IdMap(b, lo) && IdMap(b, lo)[k] >= hi
    ensures forall k :: k in IdMap(b, hi) ==> IdMap(b, hi)[k] == IdMap(b, lo)[k]
  {
    hide Ids, NoDup;
    if b.Block? && Height(b) >= hi {
      IdMapCut(b.parent, lo, hi);
    } else {
      TopicIdsAreIds(b, lo);
    }
  }

  lemma ForgottenIds(s: State)
    requires SoundBoundary(s)
    ensures var h, m := Height(s.cur) + 1, NextBooks(s).txMap;
            && (forall k :: k in m <==> k in s.books.txMap && s.books.txMap[k] + 4320 >= h)
            && forall k :: k in m ==> m[k] == s.books.txMap[k]
  {
    hide Sound, LiveFrom, FreshIds, IdMap, TopicIds, IndexOk, NextBooks, PrepareOk;
    PrepareSound(s);
    IdMapCut(s.cur, Height(s.cur) - TOPIC_LIFE_TIME, Height(s.cur) + 1 - TOPIC_LIFE_TIME);
  }

  lemma NoneOldYet(s: State)
    requires SoundBoundary(s) && Height(s.cur) + 1 < TOPIC_LIFE_TIME + 2
    ensures NextBooks(s) == s.books
    ensures forall k :: k in s.books.forum.topics ==> s.books.forum.topics[k].born + 4320 >= Height(s.cur) + 1
  {
    hide Sound, FreshIds, IdMap, TopicIds, IndexOk;
  }

  lemma ExpiredTopics(s: State)
    requires SoundBoundary(s) && NonNegative(s.books) && Height(s.cur) + 1 >= TOPIC_LIFE_TIME + 2
    ensures var h, b, d := Height(s.cur) + 1, s.books, NextBooks(s);
            && (forall k :: k in d.forum.topics <==> k in b.forum.topics && b.forum.topics[k].born + 4320 >= h)
            && (forall k :: k in d.forum.topics ==> d.forum.topics[k] == b.forum.topics[k])
            && RESERVE in b.bal
            && d.bal == b.bal[RESERVE := b.bal[RESERVE] + SumTopics(b.forum.queue, b.forum.topics)
                                         - SumTopics(d.forum.queue, d.forum.topics)]
  {
    hide Sound, LiveFrom, FreshIds, IdMap, TopicIds, IndexOk, SumTopics, NonNegative, Expire, ExpiredLog, Worth,
         ExpireOk, Without;
    var h := Height(s.cur) + 1;
    SoundOlder(s.books, Height(s.cur), h);
    HasReserve(s.books, h);
    ExpireSound(s.books, h);
    ExpireTotal(s.books, h);
  }

  /** Before its transactions a block takes out the topics, and forgets the ids, of blocks more than 4320 below it,
      and what these topics still held goes to the reserve fund. */
  lemma ExpiryEffect(s: State)
    requires SoundBoundary(s) && NonNegative(s.books)
    ensures var h, b, d := Height(s.cur) + 1, s.books, NextBooks(s);
            && (forall k :: k in d.forum.topics <==> k in b.forum.topics && b.forum.topics[k].born + 4320 >= h)
            && (forall k :: k in d.forum.topics ==> d.forum.topics[k] == b.forum.topics[k])
            && (forall k :: k in d.txMap <==> k in b.txMap && b.txMap[k] + 4320 >= h)
            && (forall k :: k in d.txMap ==> d.txMap[k] == b.txMap[k])
            && d.reg == b.reg && NoKey in b.bal
            && d.bal == b.bal[NoKey := b.bal[NoKey] + SumTopics(b.forum.queue, b.forum.topics)
                                       - SumTopics(d.forum.queue, d.forum.topics)]
  {
    hide SoundBoundary, NextBooks, SumTopics, NonNegative, Sound, LiveFrom, FreshIds, IdMap, TopicIds, PrepareOk;
    PrepareSound(s);
    ForgottenIds(s);
    if Height(s.cur) + 1 >= TOPIC_LIFE_TIME + 2 {
      ExpiredTopics(s);
    } else {
      NoneOldYet(s);
      ReserveThere(s);
    }
  }

  lemma ReserveThere(s: State)
    requires SoundBoundary(s)
    ensures NoKey in s.books.bal
  {
    hide LiveFrom, FreshIds, IdMap, TopicIds, IndexOk;
  }

  /** The genesis ledger: the author has half of the 10^12 coins, the reserve fund the other half, and nobody else is
      registered. */
  lemma GenesisEffect()
    ensures var author := INITIAL.books.reg.byId[1];
            && INITIAL.books.reg.byId == map[0 := NoKey, 1 := author]
            && INITIAL.books.reg.accounts.Keys == {author} && INITIAL.books.reg.accounts[author].referrer == None
            && INITIAL.books.reg.accounts[author].id == 1 && INITIAL.books.reg.curId == 1
            && author != NoKey && INITIAL.books.bal == map[NoKey := 500000000000, author := 500000000000]
            && INITIAL.books.txMap == map[] && INITIAL.books.forum.topics == map[] && INITIAL.books.forum.queue == []
            && INITIAL.cur == Genesis
  {
  }
}
