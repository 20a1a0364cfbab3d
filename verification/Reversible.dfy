/** When a transaction can be taken back: no empty list is popped, no unknown account touched, no uint64 wraps. */
module Reversible {
  import opened Lists
  import opened Chain
  import opened Books
  import opened Inverse
  import opened Invariant
  import opened Sim
  import opened Blocks
  import opened Reorg
  import opened Stripped
  import opened Bare
  import opened Conservation

  function WithoutFee(m: Balances, payer: Pubkey, ref: Pubkey): Balances {
    map x | x in m :: m[x] - FeeDelta(payer, ref, x)
  }

  function WithoutBody(m: Balances, tx: Tx, paidTo: Pubkey): Balances {
    map x | x in m :: m[x] - BodyDelta(tx, paidTo, x)
  }

  /** The lists that the reverse step of a reply takes from the back are not empty: the author owns the topic or it
      has a member, and when the last member was added by this reply the author's joined list has an element.
      Everywhere else the source calls back or pop_back on an empty std::list, which is undefined. */
  predicate Poppable(f: Forum, tx: Tx) {
    tx.body.TxReply? && tx.body.topicKey in f.topics ==>
      var t := f.topics[tx.body.topicKey];
      && (t.owner != tx.pubkey ==> t.members != [])
      && (AddedLast(t, tx) ==> ListAt(f.joined, tx.pubkey) != [])
  }

  /** Every turn of the reverse loop, last transaction first, finds such lists. */
  predicate LoopDefined(f: Forum, txs: seq<Tx>)
    decreases |txs|
  {
    txs == [] ||
    (Poppable(f, txs[|txs| - 1]) && LoopDefined(UndoForum(f, txs[|txs| - 1]), txs[..|txs| - 1]))
  }

  predicate ReplyReady(f: Forum, tx: Tx)
    requires tx.body.TxReply?
  {
    tx.body.topicKey in f.topics && f.topics[tx.body.topicKey].replies != [] && Poppable(f, tx)
  }

  predicate RewardReady(f: Forum, tx: Tx)
    requires tx.body.TxReward?
  {
    && tx.body.topicKey in f.topics
    && var t := f.topics[tx.body.topicKey];
    && FindReply(t.replies, tx.body.toReply) < |t.replies|
    && tx.body.paid <= t.replies[FindReply(t.replies, tx.body.toReply)].balance <= TOTAL
    && 0 <= t.balance && t.balance + tx.body.paid <= TOTAL
  }

  function UnbodyBalances(m: Balances, tx: Tx, paidTo: Pubkey): Balances {
    var body := WithoutBody(m, tx, paidTo);
    if tx.body.TxReg? then body - {tx.pubkey} else body
  }

  /** The accounts, lists and replies that undoing the body reads are there. */
  predicate ListsReady(m: Balances, reg: Registry, f: Forum, tx: Tx) {
    && (!tx.body.TxReg? ==> tx.pubkey in m)
    && match tx.body
       case TxReg(_, _, _) => reg.curId > 0
       case TxSend(receiver, amount) => receiver in m && amount <= TOTAL
       case TxTopic(reward) => reward <= TOTAL && f.queue != [] && ListAt(f.owned, tx.pubkey) != []
       case TxReply(_, _) => ReplyReady(f, tx)
       case TxReward(_, _, _) => RewardReady(f, tx) && PaidTo(f, tx) in m
  }

  /** What undoing the body needs of the balances `m` after the fee is given back. */
  predicate UndoBodyReady(m: Balances, reg: Registry, f: Forum, tx: Tx) {
    && (forall p :: p in m ==> 0 <= m[p] <= TOTAL + 2 && 0 <= m[p] - BodyDelta(tx, PaidTo(f, tx), p))
    && ListsReady(m, reg, f, tx)
  }

  /** When a transaction can be taken back without touching an empty list, an unknown account or a uint64 bound. */
  predicate UndoReady(b: Books, tx: Tx) {
    var payer := Payer(tx);
    var referrer := Referrer(b.reg, payer);
    && payer in b.bal && referrer in b.bal && referrer != payer && b.bal[referrer] >= 1
    && (forall p :: p in b.bal ==> 0 <= b.bal[p] <= TOTAL)
    && UndoBodyReady(WithoutFee(b.bal, payer, referrer), b.reg, b.forum, tx)
  }

  lemma UndoMoneyShape(b: Books, tx: Tx)
    ensures UndoMoney(b, tx) ==
              UnbodyBalances(WithoutFee(b.bal, Payer(tx), Referrer(b.reg, Payer(tx))), tx, PaidTo(b.forum, tx))
  {
    hide Referrer, PaidTo, FeeDelta, BodyDelta, Payer;
    var body := WithoutBody(WithoutFee(b.bal, Payer(tx), Referrer(b.reg, Payer(tx))), tx, PaidTo(b.forum, tx));
    assert body == map x | x in b.bal :: b.bal[x] - Delta(b.reg, b.forum, tx, x);
  }

  lemma UnbodyCases(m: Balances, f: Forum, tx: Tx)
    ensures tx.body.TxReg? || tx.body.TxReply? ==> WithoutBody(m, tx, PaidTo(f, tx)) == m
    ensures tx.body.TxSend? || tx.body.TxTopic? ==> PaidTo(f, tx) == RESERVE
  {
    hide FindReply, ReplyOwner;
  }

  // ---- Whatever was applied can be taken back

  lemma PartiesAfter(b: Books, tx: Tx, h: nat, index: bool)
    requires TxOk(b, tx) && FormatOk(tx) && Sound(b, h)
    ensures Referrer(ApplyRegistry(b.reg, tx, h, index), Payer(tx)) == Referrer(b.reg, Payer(tx))
    ensures PaidTo(ApplyForum(b.forum, tx, h), tx) == PaidTo(b.forum, tx)
    ensures Referrer(b.reg, Payer(tx)) != Payer(tx)
    ensures tx.body.TxReg? ==> tx.pubkey !in b.bal && tx.pubkey != Payer(tx) && tx.pubkey != Referrer(b.reg, Payer(tx))
  {
    hide TopicsOk, QueueOk, ForumOk, ApplyForum, PaidTo, FeeDelta;
    assert AccountOk(b, Payer(tx));
    if tx.body.TxReg? {
      RegIsNew(b, tx, h);
    }
    SameDelta(b, tx, h, index);
  }

  /** The balances after the fee is given back are the old ones plus what the body moved. */
  lemma MoneyReady(b: Books, tx: Tx, h: nat, index: bool)
    requires Sound(b, h) && Bounded(b) && TxOk(b, tx) && FormatOk(tx)
    requires forall p :: p in ApplyMoney(b, tx) ==> 0 <= ApplyMoney(b, tx)[p] <= TOTAL
    ensures var m := WithoutFee(ApplyMoney(b, tx), Payer(tx), Referrer(b.reg, Payer(tx)));
            forall p :: p in m ==> 0 <= m[p] <= TOTAL + 2 && 0 <= m[p] - BodyDelta(tx, PaidTo(b.forum, tx), p)
    ensures Referrer(b.reg, Payer(tx)) in ApplyMoney(b, tx) && ApplyMoney(b, tx)[Referrer(b.reg, Payer(tx))] >= 1
  {
    hide Sound, BoundedForum, ForumOk, PaidTo, Referrer, FormatOk, TxOk, ApplyMoney, WithoutFee, BodyDelta;
    PartiesAfter(b, tx, h, index);
    Parties(b, tx, h);
    forall p | p in WithoutFee(ApplyMoney(b, tx), Payer(tx), Referrer(b.reg, Payer(tx)))
      ensures var m := WithoutFee(ApplyMoney(b, tx), Payer(tx), Referrer(b.reg, Payer(tx)));
              0 <= m[p] <= TOTAL + 2 && 0 <= m[p] - BodyDelta(tx, PaidTo(b.forum, tx), p)
    {
      BalanceBack(b, tx, p);
    }
    BalanceBack(b, tx, Referrer(b.reg, Payer(tx)));
    ReferrerGains(b, tx);
  }

  /** One balance after the fee is given back, and what it is without the body. */
  lemma BalanceBack(b: Books, tx: Tx, p: Pubkey)
    requires (forall x :: x in b.bal ==> 0 <= b.bal[x] <= TOTAL) && PayerDiffers(b, tx)
    requires forall x :: x in ApplyMoney(b, tx) ==> 0 <= ApplyMoney(b, tx)[x] <= TOTAL
    ensures p in b.bal || (tx.body.TxReg? && p == tx.pubkey) <==>
            p in WithoutFee(ApplyMoney(b, tx), Payer(tx), Referrer(b.reg, Payer(tx)))
    ensures p in WithoutFee(ApplyMoney(b, tx), Payer(tx), Referrer(b.reg, Payer(tx))) ==>
              var m := WithoutFee(ApplyMoney(b, tx), Payer(tx), Referrer(b.reg, Payer(tx)));
              0 <= m[p] <= TOTAL + 2 && 0 <= m[p] - BodyDelta(tx, PaidTo(b.forum, tx), p)
  {
    hide PaidTo, Referrer;
  }

  /** The payer is not its own referrer, and a new account is neither. */
  predicate PayerDiffers(b: Books, tx: Tx) {
    && Referrer(b.reg, Payer(tx)) != Payer(tx)
    && (tx.body.TxReg? ==> tx.pubkey !in b.bal && tx.pubkey != Payer(tx) && tx.pubkey != Referrer(b.reg, Payer(tx)))
  }

  lemma ReferrerGains(b: Books, tx: Tx)
    requires PayerDiffers(b, tx) && Referrer(b.reg, Payer(tx)) in b.bal
    requires forall x :: x in b.bal ==> 0 <= b.bal[x]
    ensures Referrer(b.reg, Payer(tx)) in ApplyMoney(b, tx) && ApplyMoney(b, tx)[Referrer(b.reg, Payer(tx))] >= 1
  {
    hide PaidTo, Referrer;
  }

  /** Where a reply is applied so that it can be taken back. */
  predicate Answerable(f: Forum, tx: Tx) {
    tx.body.TxReply? && tx.body.topicKey in f.topics ==>
      var t := f.topics[tx.body.topicKey];
      t.owner == tx.pubkey || t.members != [] || tx.body.topicKey !in ListAt(f.joined, tx.pubkey)
  }

  /** Whether the reverse step of a reply is defined right after the reply was applied depends only on where it was
      applied: the author owns the topic, or the topic has a member, or the author's joined list does not have it. */
  lemma PoppableIff(b: Books, tx: Tx, h: nat, h': nat)
    requires Sound(b, h) && TxOk(b, tx) && tx.body.TxReply?
    ensures tx.body.topicKey in b.forum.topics
    ensures Poppable(ApplyForum(b.forum, tx, h'), tx) <==> Answerable(b.forum, tx)
  {
    InForum(b, tx);
    FreshIdIn(b, tx, h);
    hide TxOk, Sound, IsMember;
    var k := tx.body.topicKey;
    assert ApplyForum(b.forum, tx, h').topics[k].owner == b.forum.topics[k].owner;
    if Joins(b.forum, tx) {
      JoinedLast(b.forum, tx, k, tx.body.replyTo);
    }
  }

  lemma FreshIdIn(b: Books, tx: Tx, h: nat)
    requires Sound(b, h) && TxOk(b, tx) && tx.body.TxReply? && tx.body.topicKey in b.forum.topics
    ensures var ms := b.forum.topics[tx.body.topicKey].members;
            forall i :: 0 <= i < |ms| ==> ms[i].txId != Hash(tx)
  {
    hide ColumnsOk, QueueOk, ForumOk;
    var t := b.forum.topics[tx.body.topicKey];
    assert TopicOk(b, tx.body.topicKey, t);
    forall i | 0 <= i < |t.members| ensures t.members[i].txId != Hash(tx) {
      assert MemberOk(b, t.members[i], t.born);
    }
  }

  /** A newcomer leaves a member behind, and an element in its joined list. */
  lemma JoinedLast(f: Forum, tx: Tx, k: Key, to: Option<Key>)
    requires tx.body == TxReply(k, to) && Joins(f, tx)
    ensures k in ForumReply(f, tx, k, to).topics && ForumReply(f, tx, k, to).topics[k].members != []
    ensures ListAt(ForumReply(f, tx, k, to).joined, tx.pubkey) != []
  {
  }

  /** The reply that is taken off is there. */
  lemma ReplyThere(s: Forum, b: Books, tx: Tx, h: nat)
    requires TxOk(b, tx) && tx.body.TxReply? && StripForum(s) == StripForum(ApplyForum(b.forum, tx, h))
    ensures tx.body.topicKey in s.topics && s.topics[tx.body.topicKey].replies != []
  {
    InForum(b, tx);
    hide TxOk, Joins, IsMember;
    var k, f := tx.body.topicKey, ApplyForum(b.forum, tx, h);
    assert k in f.topics && f.topics[k].replies != [];
    TopicStripped(s, f, k);
  }

  lemma TopicStripped(s: Forum, f: Forum, k: Key)
    requires StripForum(s) == StripForum(f) && k in f.topics
    ensures k in s.topics && StripTopic(s.topics[k]) == StripTopic(f.topics[k])
  {
    assert k in StripTopics(f.topics) && StripTopics(s.topics) == StripTopics(f.topics);
    assert StripTopics(s.topics)[k] == StripTopics(f.topics)[k];
  }

  lemma RewardFacts(b: Books, tx: Tx, h: nat)
    requires TxOk(b, tx) && tx.body.TxReward?
    ensures tx.body.topicKey in b.forum.topics
    ensures NormalReplyAt(b.forum.topics[tx.body.topicKey], tx.body.toReply)
    ensures tx.body.paid <= b.forum.topics[tx.body.topicKey].balance
    ensures tx.body.topicKey in ApplyForum(b.forum, tx, h).topics
    ensures ApplyForum(b.forum, tx, h).topics[tx.body.topicKey] ==
              AddReply(PayReply(b.forum.topics[tx.body.topicKey], tx.body.toReply, tx.body.paid),
                       Reply(Hash(tx), true, tx.pubkey, Some(tx.body.toReply), tx.body.paid))
  {
    hide NormalReplyAt, ReplyOwner, FeeDelta, FeeOk, AddReply, PayReply;
  }

  lemma RewardIsReady(b: Books, tx: Tx, h: nat)
    requires Bounded(b) && TxOk(b, tx) && tx.body.TxReward?
    ensures RewardReady(ApplyForum(b.forum, tx, h), tx)
  {
    RewardFacts(b, tx, h);
    hide TxOk, ApplyForum, AddReply, PayReply, FindReply, NormalReplyAt;
    PaidReply(b.forum.topics[tx.body.topicKey], tx.body.toReply, tx.body.paid,
              Reply(Hash(tx), true, tx.pubkey, Some(tx.body.toReply), tx.body.paid));
  }

  /** What the rewarded reply and its topic hold afterwards. */
  lemma PaidReply(t: Topic, to: Key, paid: nat, r: Reply)
    requires NormalReplyAt(t, to) && r.key != to && paid <= t.balance
    requires forall i :: 0 <= i < |t.replies| && !t.replies[i].reward ==>
                           0 <= t.replies[i].balance && t.replies[i].balance + t.balance <= TOTAL
    ensures var u := AddReply(PayReply(t, to, paid), r);
            var i := FindReply(u.replies, to);
            && i < |u.replies|
            && paid <= u.replies[i].balance <= TOTAL
            && u.balance == t.balance - paid
  {
    SameReply(t, to, paid, r);
  }

  lemma SameReply(t: Topic, to: Key, v: int, r: Reply)
    requires r.key != to
    ensures FindReply(t.replies, to) < |t.replies| ==>
              FindReply(AddReply(PayReply(t, to, v), r).replies, to) == FindReply(t.replies, to)
  {
    var u := AddReply(PayReply(t, to, v), r);
    var i, j := FindReply(t.replies, to), FindReply(u.replies, to);
    assert forall n :: 0 <= n < |t.replies| ==> u.replies[n].key == t.replies[n].key;
    assert i < |t.replies| ==> u.replies[i].key == to;
    assert j < |t.replies| ==> t.replies[j].key == to;
  }

  lemma TopicIsReady(b: Books, tx: Tx, h: nat)
    requires tx.body.TxTopic?
    ensures var f := ApplyForum(b.forum, tx, h); f.queue != [] && ListAt(f.owned, tx.pubkey) != []
  {
  }

  lemma SpentBound(b: Books, tx: Tx)
    requires Bounded(b) && TxOk(b, tx)
    ensures Spent(tx) <= TOTAL
  {
    hide BoundedForum, ForumOk;
  }

  lemma ListsAreReady(s: Books, b: Books, tx: Tx, h: nat, index: bool, m: Balances)
    requires Funded(b, h) && TxOk(b, tx) && FormatOk(tx)
    requires s.reg == ApplyRegistry(b.reg, tx, h, index)
    requires StripForum(s.forum) == StripForum(ApplyForum(b.forum, tx, h))
    requires PaidTo(s.forum, tx) == PaidTo(b.forum, tx)
    requires forall p :: p in b.bal ==> p in m
    ensures ListsReady(m, s.reg, s.forum, tx) <==> Poppable(s.forum, tx)
  {
    hide Funded, Sound, TxOk, FormatOk, Bounded, Referrer, PaidTo, AddedLast, RewardReady, ApplyForum, StripForum;
    FundedBounded(b, h);
    FundedSound(b, h);
    Parties(b, tx, h);
    SpentBound(b, tx);
    var f := ApplyForum(b.forum, tx, h);
    match tx.body
    case TxTopic(_) => TopicIsReady(b, tx, h); SameQueues(s.forum, f);
    case TxReply(_, _) => ReplyThere(s.forum, b, tx, h);
    case TxReward(_, _, _) => RewardIsReady(b, tx, h); SameRewardReady(s.forum, f, tx);
    case _ =>
  }

  lemma SameQueues(s: Forum, f: Forum)
    requires StripForum(s) == StripForum(f)
    ensures s.queue == f.queue && s.owned == f.owned
  {
  }

  lemma SameRewardReady(s: Forum, f: Forum, tx: Tx)
    requires StripForum(s) == StripForum(f) && tx.body.TxReward? && RewardReady(f, tx)
    ensures RewardReady(s, tx)
  {
    hide StripForum;
    TopicStripped(s, f, tx.body.topicKey);
  }

  lemma MoneyIsReady(b: Books, tx: Tx, h: nat, index: bool)
    requires Funded(b, h) && TxOk(b, tx) && FormatOk(tx)
    ensures forall p :: p in ApplyMoney(b, tx) ==> 0 <= ApplyMoney(b, tx)[p] <= TOTAL
    ensures var m := WithoutFee(ApplyMoney(b, tx), Payer(tx), Referrer(b.reg, Payer(tx)));
            && (forall p :: p in m ==> 0 <= m[p] <= TOTAL + 2 && 0 <= m[p] - BodyDelta(tx, PaidTo(b.forum, tx), p))
            && (forall p :: p in b.bal ==> p in m)
    ensures Referrer(b.reg, Payer(tx)) in ApplyMoney(b, tx) && ApplyMoney(b, tx)[Referrer(b.reg, Payer(tx))] >= 1
    ensures Payer(tx) in ApplyMoney(b, tx)
  {
    FundedTx(b, tx, h, index);
    FundedBounded(b, h);
    FundedBounded(ApplyTx(b, tx, h, index), h);
    FundedSound(b, h);
    Parties(b, tx, h);
    BalancesKept(b, tx);
    hide Funded, TxOk, FormatOk, BodyDelta, FeeDelta, Referrer, PaidTo, ApplyForum, Sound, ApplyRegistry, ApplyMoney,
         BoundedForum;
    MoneyReady(b, tx, h, index);
  }

  /** A transaction that was applied to funded books can be taken back safely, whatever joined lists and members have
      become, if and only if the two lists that the reverse step of a reply pops are not empty. */
  lemma AppliedIsReady(s: Books, b: Books, tx: Tx, h: nat, index: bool)
    requires Funded(b, h) && TxOk(b, tx) && FormatOk(tx)
    requires Strip(s) == Strip(ApplyTx(b, tx, h, index))
    ensures UndoReady(s, tx) <==> Poppable(s.forum, tx)
  {
    hide Funded, TxOk, FormatOk, BodyDelta, FeeDelta, Referrer, PaidTo, ApplyForum, Sound, Payer, ApplyRegistry,
         ApplyMoney, BoundedForum, ListsReady, WithoutFee, ApplyTx, StripForum, Strip, Poppable;
    AppliedParts(s, b, tx, h, index);
    FundedSound(b, h);
    PartiesAfter(b, tx, h, index);
    SamePaidTo(s.forum, ApplyForum(b.forum, tx, h), tx);
    MoneyIsReady(b, tx, h, index);
    ListsAreReady(s, b, tx, h, index, WithoutFee(s.bal, Payer(tx), Referrer(b.reg, Payer(tx))));
  }

  lemma SamePaidTo(s: Forum, f: Forum, tx: Tx)
    requires StripForum(s) == StripForum(f)
    ensures PaidTo(s, tx) == PaidTo(f, tx)
  {
    hide PaidTo, StripForum;
    StripPaidTo(s, tx);
    StripPaidTo(f, tx);
  }

  lemma AppliedParts(s: Books, b: Books, tx: Tx, h: nat, index: bool)
    requires Strip(s) == Strip(ApplyTx(b, tx, h, index))
    ensures s.reg == ApplyRegistry(b.reg, tx, h, index) && s.bal == ApplyMoney(b, tx)
    ensures StripForum(s.forum) == StripForum(ApplyForum(b.forum, tx, h))
  {
    hide ApplyRegistry, ApplyMoney, ApplyForum, StripForum;
  }

  lemma BalancesKept(b: Books, tx: Tx)
    ensures forall p :: p in b.bal ==> p in ApplyMoney(b, tx)
  {
  }

  /** An account whose registration is undone has no coins left, so that its object may stay in the rich index. */
  lemma UnregisteredIsEmpty(s: Books, b: Books, tx: Tx, h: nat, index: bool)
    requires tx.body.TxReg? && Strip(s) == Strip(ApplyTx(b, tx, h, index))
    ensures tx.pubkey in s.bal && s.bal[tx.pubkey] == 0
  {
    hide ApplyRegistry, ApplyForum, StripForum, Delta;
  }

  // ---- Whole loops

  /** The topics agree, and no joined list is shorter. */
  ghost predicate NoShorter(s: Forum, f: Forum) {
    s.topics == f.topics && ListsNoShorter(s.joined, f.joined)
  }

  ghost predicate ListsNoShorter(m: map<Pubkey, seq<Key>>, n: map<Pubkey, seq<Key>>) {
    (forall p :: p in n <==> p in m) && forall p :: p in n ==> |m[p]| >= |n[p]|
  }

  lemma NoShorterPoppable(s: Forum, b: Books, tx: Tx, h: nat, h': nat)
    requires Sound(b, h) && TxOk(b, tx) && tx.body.TxReply? && NoShorter(s, ApplyForum(b.forum, tx, h'))
    ensures Poppable(s, tx) <==> Answerable(b.forum, tx)
  {
    hide TxOk, Sound, IsMember, ApplyForum, AddedLast;
    PoppableIff(b, tx, h, h');
    FreshIdIn(b, tx, h);
    LastAdded(b.forum, tx, h');
    var f := ApplyForum(b.forum, tx, h');
    assert |ListAt(s.joined, tx.pubkey)| >= |ListAt(f.joined, tx.pubkey)|;
  }

  /** Only a newcomer's own reply leaves its id with the last member. */
  lemma LastAdded(f: Forum, tx: Tx, h: nat)
    requires tx.body.TxReply? && tx.body.topicKey in f.topics
    requires forall i :: 0 <= i < |f.topics[tx.body.topicKey].members| ==>
                           f.topics[tx.body.topicKey].members[i].txId != Hash(tx)
    ensures var g := ApplyForum(f, tx, h);
            && tx.body.topicKey in g.topics
            && (AddedLast(g.topics[tx.body.topicKey], tx) ==> ListAt(g.joined, tx.pubkey) != [])
  {
    hide IsMember;
  }

  lemma NoShorterUndone(s: Forum, b: Books, tx: Tx, h: nat, h': nat)
    requires Sound(b, h) && TxOk(b, tx) && FormatOk(tx) && NoShorter(s, ApplyForum(b.forum, tx, h'))
    ensures NoShorter(UndoForum(s, tx), b.forum)
  {
    hide Sound, FormatOk, TxOk, ForumReply, UnReply, ForumReward, UnReward, ForumTopic, UnTopic;
    TxParts(b, tx);
    match tx.body
    case TxReg(_, _, _) => NewcomerHasNone(b, tx, h);
    case TxSend(_, _) =>
    case TxTopic(reward) => NoShorterTopic(s, b.forum, tx, reward, h');
    case TxReply(k, to) =>
      FreshIdIn(b, tx, h);
      AuthorHasList(b, tx, h);
      NoShorterReply(s, b.forum, tx, k, to);
    case TxReward(k, to, paid) => NoShorterReward(s, b.forum, tx, k, to, paid);
  }

  lemma TxParts(b: Books, tx: Tx)
    requires TxOk(b, tx)
    ensures tx.body.TxTopic? ==> Hash(tx) !in b.forum.topics
    ensures tx.body.TxReply? ==> tx.body.topicKey in b.forum.topics
    ensures tx.body.TxReward? ==>
              tx.body.topicKey in b.forum.topics && NormalReplyAt(b.forum.topics[tx.body.topicKey], tx.body.toReply)
  {
    hide NormalReplyAt, ReplyOwner, FeeDelta, FeeOk;
  }

  lemma NoShorterTopic(s: Forum, f: Forum, tx: Tx, reward: int, h: nat)
    requires Hash(tx) !in f.topics && NoShorter(s, ForumTopic(f, tx, reward, h))
    ensures NoShorter(UnTopic(s, tx), f)
  {
    assert UnTopic(s, tx).topics == f.topics;
  }

  lemma NoShorterReward(s: Forum, f: Forum, tx: Tx, k: Key, to: Key, paid: int)
    requires k in f.topics && NormalReplyAt(f.topics[k], to) && NoShorter(s, ForumReward(f, tx, k, to, paid))
    requires to != Hash(tx)
    ensures NoShorter(UnReward(s, tx, k, to, paid), f)
  {
    RewardKeeps(f.topics[k], to, paid, Reply(Hash(tx), true, tx.pubkey, Some(to), paid));
    hide PayReply, AddReply, DropReply, NormalReplyAt, ReplyOwner;
    assert UnReward(s, tx, k, to, paid).topics == f.topics;
  }

  /** The topic of a reply when the reply is taken off again. */
  lemma TopicBack(t: Topic, tx: Tx, r: Reply, joins: bool)
    requires joins ==> t.owner != tx.pubkey
    requires forall i :: 0 <= i < |t.members| ==> t.members[i].txId != Hash(tx)
    ensures var u := DropReply(AddReply(if joins then AddMember(t, Hash(tx), tx.pubkey) else t, r));
            if AddedLast(u, tx) then joins && u.(members := DropLast(u.members)) == t else u == t
  {
    assert DropLast(t.replies + [r]) == t.replies;
    if joins && !IsMember(t, tx.pubkey) {
      assert DropLast(t.members + [Member(Hash(tx), tx.pubkey)]) == t.members;
    }
  }

  lemma NoShorterReply(s: Forum, f: Forum, tx: Tx, k: Key, to: Option<Key>)
    requires tx.body == TxReply(k, to) && k in f.topics && NoShorter(s, ForumReply(f, tx, k, to))
    requires forall i :: 0 <= i < |f.topics[k].members| ==> f.topics[k].members[i].txId != Hash(tx)
    requires tx.pubkey in f.joined
    ensures NoShorter(UnReply(s, tx, k), f)
  {
    hide AddReply, AddMember, DropReply, AddedLast, IsMember;
    TopicBack(f.topics[k], tx, Reply(Hash(tx), false, tx.pubkey, to, 0), Joins(f, tx));
    assert UnReply(s, tx, k).topics == f.topics;
  }

  /** Each reply of `txs` was applied where it can be taken back. */
  predicate AllAnswerable(b: Books, txs: seq<Tx>, h: nat, index: bool) {
    txs == [] ||
    (&& AllAnswerable(b, txs[..|txs| - 1], h, index)
     && Answerable(ApplyTxs(b, txs[..|txs| - 1], h, index).forum, txs[|txs| - 1]))
  }

  /** Whatever joined lists and members are, the reverse loop over applied transactions is defined if and only if each
      reply was applied where its author owns the topic, or the topic had a member, or the author had not joined it. */
  lemma {:induction false} LoopDefinedIff(s: Forum, b: Books, txs: seq<Tx>, h: nat, index: bool)
    requires Sound(b, h) && TxsFit(b, txs, h, index) && NoShorter(s, ApplyTxs(b, txs, h, index).forum)
    ensures LoopDefined(s, txs) <==> AllAnswerable(b, txs, h, index)
    decreases |txs|
  {
    hide Sound, TxOk, FormatOk, ApplyTx, Poppable, Answerable, NoShorter, UndoForum, ApplyForum;
    if txs != [] {
      var init, tx := txs[..|txs| - 1], txs[|txs| - 1];
      var c := ApplyTxs(b, init, h, index);
      SoundTxs(b, init, h, index);
      AppliedForumIs(c, tx, h, index);
      NoShorterUndone(s, c, tx, h, h);
      LoopDefinedIff(UndoForum(s, tx), b, init, h, index);
      if tx.body.TxReply? {
        NoShorterPoppable(s, c, tx, h, h);
      } else {
        OnlyReplies(s, c.forum, tx);
      }
    }
  }

  lemma OnlyReplies(s: Forum, f: Forum, tx: Tx)
    requires !tx.body.TxReply?
    ensures Poppable(s, tx) && Answerable(f, tx)
  {
  }

  lemma AppliedForumIs(c: Books, tx: Tx, h: nat, index: bool)
    ensures ApplyTx(c, tx, h, index).forum == ApplyForum(c.forum, tx, h)
  {
    hide ApplyForum, ApplyMoney, ApplyRegistry;
  }

  lemma NoShorterSelf(f: Forum)
    ensures NoShorter(f, f)
  {
  }

  /** Every joined list names live topics, each of them the account's own or with a member. */
  ghost predicate Peopled(f: Forum) {
    forall p, k :: k in ListAt(f.joined, p) ==> k in f.topics && (f.topics[k].owner == p || f.topics[k].members != [])
  }

  lemma PeopledKept(b: Books, tx: Tx, h: nat)
    requires TxOk(b, tx) && Peopled(b.forum)
    ensures Peopled(ApplyForum(b.forum, tx, h)) && Answerable(b.forum, tx)
  {
    TxParts(b, tx);
    hide TxOk, FindReply, NormalReplyAt;
    var f, g := b.forum, ApplyForum(b.forum, tx, h);
    forall p, k | k in ListAt(g.joined, p)
      ensures k in g.topics && (g.topics[k].owner == p || g.topics[k].members != [])
    {
      if k in ListAt(f.joined, p) {
        assert f.topics[k].owner == p || f.topics[k].members != [];
      }
    }
  }

  lemma {:induction false} PeopledTxs(p: Books, txs: seq<Tx>, h: nat, index: bool)
    requires TxsFit(p, txs, h, index) && Peopled(p.forum)
    ensures Peopled(ApplyTxs(p, txs, h, index).forum) && AllAnswerable(p, txs, h, index)
    decreases |txs|
  {
    hide TxOk, FormatOk, ApplyTx, ApplyForum, Peopled, Answerable;
    if txs != [] {
      var c, tx := ApplyTxs(p, txs[..|txs| - 1], h, index), txs[|txs| - 1];
      PeopledTxs(p, txs[..|txs| - 1], h, index);
      PeopledKept(c, tx, h);
      AppliedForumIs(c, tx, h, index);
    }
  }

  lemma LinkedPeopled(f: Forum)
    requires Linked(f)
    ensures Peopled(f)
  {
    forall p, k | k in ListAt(f.joined, p) ensures k in f.topics && f.topics[k].members != [] {
      assert JoinedListOk(f, p);
    }
  }

  /** Where members and joined lists agreed before the first of them, it always is. */
  lemma LoopDefinedAlike(s: Books, b: Books, txs: seq<Tx>, h: nat, index: bool)
    requires Inv(b, h) && TxsFit(b, txs, h, index) && BooksAlike(s, ApplyTxs(b, txs, h, index))
    ensures LoopDefined(s.forum, txs)
  {
    hide Inv, TxsFit, ApplyTxs, LoopDefined, AllAnswerable, NoShorter, BooksAlike, Peopled, Linked;
    SoundOf(b, h);
    AlikeNoShorter(s, ApplyTxs(b, txs, h, index));
    LinkedPeopled(b.forum);
    PeopledTxs(b, txs, h, index);
    LoopDefinedIff(s.forum, b, txs, h, index);
  }

  lemma AlikeNoShorter(s: Books, b: Books)
    requires BooksAlike(s, b)
    ensures NoShorter(s.forum, b.forum)
  {
  }
}
