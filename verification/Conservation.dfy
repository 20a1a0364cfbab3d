/** Coins: accounts and live topics together always hold the same total, and no balance goes below zero. */
module Conservation {
  import opened Lists
  import opened Sums
  import opened Chain
  import opened Books
  import opened Inverse
  import opened Invariant
  import opened Expiry
  import opened Blocks
  import opened Replayed

  ghost function SumTopics(q: seq<Key>, topics: map<Key, Topic>): int {
    if q == [] then 0
    else (if q[0] in topics then topics[q[0]].balance else 0) + SumTopics(q[1..], topics)
  }

  /** What check_balance adds up. */
  ghost function Total(b: Books): int {
    MapSum(b.bal) + SumTopics(b.forum.queue, b.forum.topics)
  }

  ghost predicate NonNegative(b: Books) {
    && (forall p :: p in b.bal ==> b.bal[p] >= 0)
    && (forall k :: k in b.forum.topics ==> b.forum.topics[k].balance >= 0)
  }

  lemma {:induction false} SumTopicsAppend(q: seq<Key>, k: Key, topics: map<Key, Topic>)
    requires k in topics
    ensures SumTopics(q + [k], topics) == SumTopics(q, topics) + topics[k].balance
  {
    if q == [] {
      assert q + [k] == [k];
    } else {
      SumTopicsAppend(q[1..], k, topics);
      assert (q + [k])[1..] == q[1..] + [k];
    }
  }

  /** Only the balances of the queued topics matter. */
  lemma {:induction false} SumTopicsSame(q: seq<Key>, t: map<Key, Topic>, u: map<Key, Topic>)
    requires forall k :: k in q ==> (k in t <==> k in u) && (k in t ==> t[k].balance == u[k].balance)
    ensures SumTopics(q, t) == SumTopics(q, u)
  {
    if q != [] {
      SumTopicsSame(q[1..], t, u);
    }
  }

  lemma {:induction false} SumTopicsOne(q: seq<Key>, t: map<Key, Topic>, k: Key, v: Topic)
    requires NoDup(q) && k in q && k in t
    ensures SumTopics(q, t[k := v]) == SumTopics(q, t) - t[k].balance + v.balance
  {
    if q[0] == k {
      SumTopicsSame(q[1..], t, t[k := v]);
    } else {
      SumTopicsOne(q[1..], t, k, v);
    }
  }

  // ---- Bounds

  lemma {:induction false} SumTopicsBound(q: seq<Key>, topics: map<Key, Topic>)
    requires forall k :: k in topics ==> topics[k].balance >= 0
    ensures SumTopics(q, topics) >= 0
    ensures forall k :: k in q && k in topics ==> topics[k].balance <= SumTopics(q, topics)
  {
    if q != [] {
      SumTopicsBound(q[1..], topics);
    }
  }

  lemma BalanceBound(m: Balances, p: Pubkey)
    requires p in m && forall x :: x in m ==> m[x] >= 0
    ensures m[p] <= MapSum(m)
  {
    SumOut(m, p);
    SumNonNegative(m - {p});
  }

  /** No balance exceeds the total. */
  lemma NoneAboveTotal(b: Books, h: nat)
    requires NonNegative(b) && QueueOk(b.forum, h)
    ensures forall p :: p in b.bal ==> b.bal[p] <= Total(b)
    ensures forall k :: k in b.forum.topics ==> b.forum.topics[k].balance <= Total(b)
  {
    SumTopicsBound(b.forum.queue, b.forum.topics);
    SumNonNegative(b.bal);
    forall p | p in b.bal ensures b.bal[p] <= Total(b) {
      BalanceBound(b.bal, p);
    }
  }

  // ---- What a topic pays out

  /** The coins that rewards have moved to the normal replies. */
  ghost function PaidOut(rs: seq<Reply>): int {
    if rs == [] then 0 else (if rs[0].reward then 0 else rs[0].balance) + PaidOut(rs[1..])
  }

  /** A topic's balance and what its replies were paid add up to what it was opened with. */
  ghost predicate TopicFunds(t: Topic) {
    && 0 <= t.balance
    && (forall i :: 0 <= i < |t.replies| ==> t.replies[i].balance >= 0)
    && t.balance + PaidOut(t.replies) == t.total <= TOTAL
  }

  ghost predicate FundsOk(f: Forum) {
    forall k :: k in f.topics ==> TopicFunds(f.topics[k])
  }

  lemma {:induction false} PaidOutAppend(rs: seq<Reply>, r: Reply)
    ensures PaidOut(rs + [r]) == PaidOut(rs) + if r.reward then 0 else r.balance
  {
    if rs == [] {
      assert rs + [r] == [r];
    } else {
      PaidOutAppend(rs[1..], r);
      assert (rs + [r])[1..] == rs[1..] + [r];
    }
  }

  lemma {:induction false} PaidOutUpdate(rs: seq<Reply>, i: nat, r: Reply)
    requires i < |rs| && rs[i].reward == r.reward
    ensures PaidOut(rs[i := r]) == PaidOut(rs) + if r.reward then 0 else r.balance - rs[i].balance
  {
    if i == 0 {
      assert rs[i := r] == [r] + rs[1..];
    } else {
      PaidOutUpdate(rs[1..], i - 1, r);
      assert rs[i := r][1..] == rs[1..][i - 1 := r];
    }
  }

  lemma {:induction false} PaidOutBound(rs: seq<Reply>, i: nat)
    requires i < |rs| && !rs[i].reward && forall j :: 0 <= j < |rs| ==> rs[j].balance >= 0
    ensures rs[i].balance <= PaidOut(rs)
    ensures PaidOut(rs) >= 0
  {
    if i > 0 {
      PaidOutBound(rs[1..], i - 1);
    } else {
      PaidOutNonNegative(rs[1..]);
    }
  }

  lemma {:induction false} PaidOutNonNegative(rs: seq<Reply>)
    requires forall j :: 0 <= j < |rs| ==> rs[j].balance >= 0
    ensures PaidOut(rs) >= 0
  {
    if rs != [] {
      PaidOutNonNegative(rs[1..]);
    }
  }

  lemma RewardFunds(t: Topic, to: Key, paid: nat, r: Reply)
    requires TopicFunds(t) && NormalReplyAt(t, to) && paid <= t.balance && r.reward && r.balance >= 0
    ensures TopicFunds(AddReply(PayReply(t, to, paid), r))
  {
    var i := FindReply(t.replies, to);
    var u := t.replies[i].(balance := t.replies[i].balance + paid);
    PaidOutUpdate(t.replies, i, u);
    PaidOutAppend(t.replies[i := u], r);
  }

  lemma ReplyFunds(t: Topic, r: Reply)
    requires TopicFunds(t) && !r.reward && r.balance == 0
    ensures TopicFunds(AddReply(t, r))
  {
    PaidOutAppend(t.replies, r);
  }

  /** Rewards move coins from a topic to its replies and create none. */
  lemma TxFunds(b: Books, tx: Tx, h: nat)
    requires TxOk(b, tx) && FundsOk(b.forum)
    requires forall p :: p in b.bal ==> b.bal[p] <= TOTAL
    ensures FundsOk(ApplyForum(b.forum, tx, h))
  {
    hide TopicFunds, NormalReplyAt, ReplyOwner, AddReply, PayReply, Joins;
    match tx.body
    case TxTopic(reward) => NewTopicFunds(Topic(tx.pubkey, h, reward, reward, [], []));
    case TxReply(k, to) =>
      ReplyFunds(b.forum.topics[k], Reply(Hash(tx), false, tx.pubkey, to, 0));
      MemberFunds(b.forum.topics[k], Hash(tx), tx.pubkey, Reply(Hash(tx), false, tx.pubkey, to, 0));
    case TxReward(k, to, paid) =>
      RewardFunds(b.forum.topics[k], to, paid, Reply(Hash(tx), true, tx.pubkey, Some(to), paid));
    case _ =>
  }

  lemma NewTopicFunds(t: Topic)
    requires t.balance == t.total <= TOTAL && t.balance >= 0 && t.replies == []
    ensures TopicFunds(t)
  {
  }

  lemma MemberFunds(t: Topic, txId: Key, who: Pubkey, r: Reply)
    requires TopicFunds(t) && !r.reward && r.balance == 0
    ensures TopicFunds(AddReply(AddMember(t, txId, who), r))
  {
    PaidOutAppend(t.replies, r);
  }

  // ---- One transaction

  lemma SumAdd(m: Balances, who: Pubkey, v: int)
    requires who in m
    ensures MapSum(AddBal(m, who, v)) == MapSum(m) + v
  {
    SumPut(m, who, m[who] + v);
  }

  function WithFee(m: Balances, payer: Pubkey, ref: Pubkey): Balances {
    map x | x in m :: m[x] + FeeDelta(payer, ref, x)
  }

  function WithBody(m: Balances, tx: Tx, paidTo: Pubkey): Balances {
    map x | x in m :: m[x] + BodyDelta(tx, paidTo, x)
  }

  /** Coins that `tx` moves from accounts to its topic, or back. */
  function IntoTopics(tx: Tx): int {
    match tx.body
    case TxTopic(reward) => reward
    case TxReward(_, _, paid) => 0 - paid
    case _ => 0
  }

  lemma SumFee(m: Balances, payer: Pubkey, ref: Pubkey)
    requires payer in m && ref in m
    ensures MapSum(WithFee(m, payer, ref)) == MapSum(m) - 1
  {
    hide MapSum;
    var m1 := AddBal(m, ref, 1);
    SumAdd(m, ref, 1);
    SumAdd(m1, payer, -2);
    assert WithFee(m, payer, ref) == AddBal(m1, payer, -2);
  }

  lemma SumSend(m: Balances, tx: Tx, paidTo: Pubkey)
    requires tx.body.TxSend? && tx.pubkey in m && tx.body.receiver in m
    ensures MapSum(WithBody(m, tx, paidTo)) == MapSum(m)
  {
    hide MapSum;
    var m1 := AddBal(m, tx.pubkey, 0 - tx.body.amount);
    SumAdd(m, tx.pubkey, 0 - tx.body.amount);
    SumAdd(m1, tx.body.receiver, tx.body.amount);
    assert WithBody(m, tx, paidTo) == AddBal(m1, tx.body.receiver, tx.body.amount);
  }

  lemma SumTopic(m: Balances, tx: Tx, paidTo: Pubkey)
    requires tx.body.TxTopic? && tx.pubkey in m
    ensures MapSum(WithBody(m, tx, paidTo)) == MapSum(m) - tx.body.reward
  {
    hide MapSum;
    SumAdd(m, tx.pubkey, 0 - tx.body.reward);
    assert WithBody(m, tx, paidTo) == AddBal(m, tx.pubkey, 0 - tx.body.reward);
  }

  lemma SumReward(m: Balances, tx: Tx, paidTo: Pubkey)
    requires tx.body.TxReward? && paidTo in m
    ensures MapSum(WithBody(m, tx, paidTo)) == MapSum(m) + tx.body.paid
  {
    hide MapSum;
    SumAdd(m, paidTo, tx.body.paid);
    assert WithBody(m, tx, paidTo) == AddBal(m, paidTo, tx.body.paid);
  }

  lemma SumBody(m: Balances, tx: Tx, paidTo: Pubkey)
    requires tx.body.TxSend? ==> tx.pubkey in m && tx.body.receiver in m
    requires tx.body.TxTopic? ==> tx.pubkey in m
    requires tx.body.TxReward? ==> paidTo in m
    ensures MapSum(WithBody(m, tx, paidTo)) == MapSum(m) - IntoTopics(tx)
  {
    match tx.body
    case TxSend(_, _) => SumSend(m, tx, paidTo);
    case TxTopic(_) => SumTopic(m, tx, paidTo);
    case TxReward(_, _, _) => SumReward(m, tx, paidTo);
    case _ => assert WithBody(m, tx, paidTo) == m;
  }

  /** The fee, then the body, then the new account's empty balance. */
  lemma MoneyShape(b: Books, tx: Tx)
    ensures var body := WithBody(WithFee(b.bal, Payer(tx), Referrer(b.reg, Payer(tx))), tx, PaidTo(b.forum, tx));
            ApplyMoney(b, tx) == if tx.body.TxReg? then body[tx.pubkey := 0] else body
  {
    hide Referrer, PaidTo, FeeDelta, BodyDelta, Payer;
    var body := WithBody(WithFee(b.bal, Payer(tx), Referrer(b.reg, Payer(tx))), tx, PaidTo(b.forum, tx));
    assert body == map x | x in b.bal :: b.bal[x] + Delta(b.reg, b.forum, tx, x);
  }

  lemma MoneySteps(b: Books, tx: Tx, h: nat)
    requires TxOk(b, tx) && FormatOk(tx) && Sound(b, h)
    ensures MapSum(ApplyMoney(b, tx)) == MapSum(b.bal) - 1 - IntoTopics(tx)
  {
    Parties(b, tx, h);
    MoneyShape(b, tx);
    hide TxOk, MapSum, Sound, IntoTopics, Referrer, PaidTo, FormatOk, ApplyMoney, BodyDelta, FeeDelta;
    var payer := Payer(tx);
    var ref := Referrer(b.reg, payer);
    var fee := WithFee(b.bal, payer, ref);
    SumFee(b.bal, payer, ref);
    SumBody(fee, tx, PaidTo(b.forum, tx));
    if tx.body.TxReg? {
      SumPut(WithBody(fee, tx, PaidTo(b.forum, tx)), tx.pubkey, 0);
    }
  }

  /** Everyone whose balance the transaction touches has one. */
  lemma Parties(b: Books, tx: Tx, h: nat)
    requires TxOk(b, tx) && FormatOk(tx) && Sound(b, h)
    ensures Payer(tx) in b.bal && Referrer(b.reg, Payer(tx)) in b.bal
    ensures tx.body.TxReg? ==> tx.pubkey !in b.bal
    ensures tx.body.TxSend? ==> tx.body.receiver in b.bal
    ensures tx.body.TxReward? ==> PaidTo(b.forum, tx) in b.bal
  {
    hide ForumOk, QueueOk, TopicsOk, PaidTo, FeeDelta;
    assert AccountOk(b, Payer(tx));
    match tx.body
    case TxReg(_, _, _) => RegIsNew(b, tx, h);
    case TxSend(to, amount) => HasBalance(b, h, to);
    case TxReward(_, _, _) => PayeeHasBalance(b, tx, h);
    case _ =>
  }

  lemma RegIsNew(b: Books, tx: Tx, h: nat)
    requires tx.body.TxReg? && FeeOk(b, tx) && FormatOk(tx) && ColumnsOk(b)
    ensures tx.pubkey !in b.bal && tx.pubkey != Payer(tx) && tx.pubkey != Referrer(b.reg, Payer(tx))
  {
    assert AccountOk(b, Payer(tx));
  }

  lemma HasBalance(b: Books, h: nat, p: Pubkey)
    requires Sound(b, h) && p in b.reg.accounts
    ensures p in b.bal
  {
    assert AccountOk(b, p);
  }

  lemma PayeeHasBalance(b: Books, tx: Tx, h: nat)
    requires Sound(b, h) && tx.body.TxReward? && ForumOk(b.forum, tx)
    ensures PaidTo(b.forum, tx) in b.bal
  {
    var k := tx.body.topicKey;
    var t := b.forum.topics[k];
    assert TopicOk(b, k, t);
    assert ReplyOk(b, t.replies[FindReply(t.replies, tx.body.toReply)], t.born);
    HasBalance(b, h, PaidTo(b.forum, tx));
  }

  lemma ForumSteps(b: Books, tx: Tx, h: nat)
    requires TxOk(b, tx) && Sound(b, h)
    ensures var g := ApplyForum(b.forum, tx, h);
            SumTopics(g.queue, g.topics) == SumTopics(b.forum.queue, b.forum.topics)
              + IntoTopics(tx)
  {
    hide ColumnsOk, TopicsOk, FindReply, IsMember, FeeDelta, FeeOk;
    var f := b.forum;
    var g := ApplyForum(f, tx, h);
    match tx.body
    case TxTopic(reward) =>
      SumTopicsSame(f.queue, f.topics, g.topics);
      SumTopicsAppend(f.queue, Hash(tx), g.topics);
    case TxReply(k, _) =>
      SumTopicsOne(f.queue, f.topics, k, g.topics[k]);
    case TxReward(k, to, paid) =>
      SumTopicsOne(f.queue, f.topics, k, g.topics[k]);
    case _ =>
  }

  /** Every transaction takes exactly one coin out of circulation until the miner is paid. */
  lemma TxTotal(b: Books, tx: Tx, h: nat, index: bool)
    requires TxOk(b, tx) && FormatOk(tx) && Sound(b, h)
    ensures Total(ApplyTx(b, tx, h, index)) == Total(b) - 1
  {
    hide TxOk, FormatOk, Sound, ApplyMoney, ApplyForum, ApplyRegistry, IntoTopics;
    MoneySteps(b, tx, h);
    ForumSteps(b, tx, h);
  }

  /** The guards leave no balance below zero, whichever accounts coincide. */
  lemma TxNonNegative(b: Books, tx: Tx, h: nat, index: bool)
    requires TxOk(b, tx) && FormatOk(tx) && Sound(b, h) && NonNegative(b)
    ensures NonNegative(ApplyTx(b, tx, h, index))
  {
    BalancesNonNegative(b, tx, h);
    TopicsNonNegative(b.forum, tx, h);
    hide TxOk, ApplyMoney, ApplyForum, ApplyRegistry;
  }

  lemma BalancesNonNegative(b: Books, tx: Tx, h: nat)
    requires TxOk(b, tx) && FormatOk(tx) && Sound(b, h) && NonNegative(b)
    ensures forall p :: p in ApplyMoney(b, tx) ==> ApplyMoney(b, tx)[p] >= 0
  {
    hide TopicsOk, QueueOk, FindReply, IsMember, ForumOk;
    assert AccountOk(b, Payer(tx));
    hide ColumnsOk, AccountOk;
  }

  lemma TopicsNonNegative(f: Forum, tx: Tx, h: nat)
    requires ForumOk(f, tx) && forall k :: k in f.topics ==> f.topics[k].balance >= 0
    ensures forall k :: k in ApplyForum(f, tx, h).topics ==> ApplyForum(f, tx, h).topics[k].balance >= 0
  {
    hide FindReply, IsMember, NormalReplyAt, ReplyOwner;
  }

  lemma {:induction false} TxsTotal(b: Books, txs: seq<Tx>, h: nat, index: bool)
    requires TxsFit(b, txs, h, index) && Sound(b, h) && NonNegative(b)
    ensures Total(ApplyTxs(b, txs, h, index)) == Total(b) - |txs|
    ensures NonNegative(ApplyTxs(b, txs, h, index))
    ensures Sound(ApplyTxs(b, txs, h, index), h)
    decreases |txs|
  {
    hide TxOk, FormatOk, Sound, ApplyTx, NonNegative, Total;
    if txs != [] {
      var init, tx := txs[..|txs| - 1], txs[|txs| - 1];
      var c := ApplyTxs(b, init, h, index);
      TxsTotal(b, init, h, index);
      TxTotal(c, tx, h, index);
      TxNonNegative(c, tx, h, index);
      SoundKept(c, tx, h, index);
    }
  }

  // ---- Expiry, forgetting and the miner

  lemma {:induction false} WorthAppend(log: seq<Expired>, e: Expired)
    ensures Worth(log + [e]) == Worth(log) + e.topic.balance
  {
    if log == [] {
      assert log + [e] == [e];
    } else {
      WorthAppend(log[1..], e);
      assert (log + [e])[1..] == log[1..] + [e];
    }
  }

  /** What expires is worth exactly what the queue loses. */
  lemma {:induction false} ExpireTotal(b: Books, h: nat)
    requires Sound(b, h) && NonNegative(b)
    ensures SumTopics(Expire(b.forum, h).queue, Expire(b.forum, h).topics) + Worth(ExpiredLog(b.forum, h))
            == SumTopics(b.forum.queue, b.forum.topics)
    ensures Worth(ExpiredLog(b.forum, h)) >= 0
    decreases |b.forum.queue|
  {
    hide Sound;
    var f := b.forum;
    if FrontIsOld(f, h) {
      var d := b.(forum := ExpireFront(f));
      ExpireFrontSound(b, h);
      ExpireTotal(d, h);
      WorthAppend(ExpiredLog(d.forum, h), Expired(f.queue[0], f.topics[f.queue[0]]));
      QueueNoDup(b, h);
      TailElements(f.queue);
      SumTopicsSame(f.queue[1..], f.topics, d.forum.topics);
    }
  }

  lemma PrepareTotal(b: Books, h: nat, ids: seq<Key>)
    requires Sound(b, h) && NonNegative(b)
    ensures Total(PrepareBooks(b, h, ids)) == Total(b)
    ensures NonNegative(PrepareBooks(b, h, ids))
  {
    hide MapSum, Expire, ExpiredLog, TopicsOk, QueueOk;
    assert RESERVE in b.bal;
    hide ColumnsOk;
    if h >= TOPIC_LIFE_TIME + 2 {
      ExpireSound(b, h);
      ExpireTotal(b, h);
      SumAdd(b.bal, RESERVE, Worth(ExpiredLog(b.forum, h)));
    }
  }

  lemma PayMinerTotal(m: Balances, miner: Pubkey, n: nat)
    requires miner in m && RESERVE in m && forall p :: p in m ==> m[p] >= 0
    ensures MapSum(PayMiner(m, miner, n)) == MapSum(m) + n
    ensures forall p :: p in PayMiner(m, miner, n) ==> PayMiner(m, miner, n)[p] >= 0
  {
    hide MapSum;
    var fees := AddBal(m, miner, n);
    SumAdd(m, miner, n);
    if Rewards(m) {
      SumAdd(fees, RESERVE, 0 - BLOCK_REWARD);
      SumAdd(AddBal(fees, RESERVE, 0 - BLOCK_REWARD), miner, BLOCK_REWARD);
    }
  }

  lemma BlockTotal(p: Books, b: Block, h: nat)
    requires b.Block? && h == Height(b) && Sound(p, h) && NonNegative(p) && LiveFrom(p.forum, Oldest(h))
    requires TxsFit(p, b.txs, h, true) && b.miner in p.reg.accounts
    ensures Total(BlockBooks(p, b)) == Total(p)
    ensures NonNegative(BlockBooks(p, b))
  {
    hide MapSum, SumTopics, Sound, PayMiner, TxsFit, ApplyTxs, LiveFrom;
    var x := ApplyTxs(p, b.txs, h, true);
    TxsTotal(p, b.txs, h, true);
    MinerHasBalance(p, b.txs, h, Oldest(h), b.miner);
    HasReserve(x, h);
    PayMinerTotal(x.bal, b.miner, |b.txs|);
  }

  lemma InitialTotal()
    ensures Total(INITIAL.books) == TOTAL && NonNegative(INITIAL.books)
  {
    var m: Balances := map[];
    SumPut(m, RESERVE, TOTAL / 2);
    SumPut(m[RESERVE := TOTAL / 2], AUTHOR, TOTAL / 2);
    assert INITIAL.books.bal == m[RESERVE := TOTAL / 2][AUTHOR := TOTAL / 2];
  }

  /** A whole block conserves the total. */
  lemma StepTotal(s: State, b: Block)
    requires SoundBoundary(s) && BlockOk(s, b)
    requires Total(s.books) == TOTAL && NonNegative(s.books)
    ensures Total(ApplyBlock(s, b).books) == TOTAL
    ensures NonNegative(ApplyBlock(s, b).books)
  {
    hide Sound, LiveFrom, FreshIds, IdMap, IndexOk, Total, NonNegative, HeaderOk, PrepareOk, TxsFit, BlockBooks,
         PrepareBooks, LogTopics, LogTxs;
    SoundOlder(s.books, Height(b.parent), Height(b));
    PrepareTotal(s.books, Height(b), LeavingIds(s.byHeight, Height(b)));
    PrepareSound(s);
    BlockTotal(NextBooks(s), b, Height(b));
  }

  /** At every block boundary accounts and live topics hold exactly 10^12 coins, none of them negative. */
  lemma {:induction false} ReplayTotal(b: Block)
    requires Replay(b).Some?
    ensures Total(Replay(b).value.books) == TOTAL
    ensures NonNegative(Replay(b).value.books)
  {
    hide SoundBoundary, Linked, Total, NonNegative, BlockOk, ApplyBlock;
    if b.Genesis? {
      InitialTotal();
    } else {
      ReplayTotal(b.parent);
      ReplayBoundary(b.parent);
      StepTotal(Replay(b.parent).value, b);
    }
  }

  // ---- Books whose balances are safe to compute on

  /** Books that start can reach, inside a block or between blocks. */
  ghost predicate Funded(b: Books, h: nat) {
    Sound(b, h) && NonNegative(b) && FundsOk(b.forum) && Total(b) <= TOTAL
  }

  lemma FundedSound(b: Books, h: nat)
    requires Funded(b, h)
    ensures Sound(b, h)
  {
  }

  /** Every balance lies between zero and the total. */
  ghost predicate Bounded(b: Books) {
    (forall p :: p in b.bal ==> 0 <= b.bal[p] <= TOTAL) && BoundedForum(b.forum)
  }

  ghost predicate BoundedForum(f: Forum) {
    && (forall k :: k in f.topics ==> 0 <= f.topics[k].balance <= TOTAL)
    && (forall k, i :: k in f.topics && 0 <= i < |f.topics[k].replies| && !f.topics[k].replies[i].reward
          ==> 0 <= f.topics[k].replies[i].balance && f.topics[k].replies[i].balance + f.topics[k].balance <= TOTAL)
  }

  lemma FundedBounded(b: Books, h: nat)
    requires Funded(b, h)
    ensures Bounded(b)
  {
    hide Total, TopicsOk, ColumnsOk;
    NoneAboveTotal(b, h);
    forall k, i | k in b.forum.topics && 0 <= i < |b.forum.topics[k].replies| && !b.forum.topics[k].replies[i].reward
      ensures 0 <= b.forum.topics[k].replies[i].balance
      ensures b.forum.topics[k].replies[i].balance + b.forum.topics[k].balance <= TOTAL
    {
      assert TopicFunds(b.forum.topics[k]);
      PaidOutBound(b.forum.topics[k].replies, i);
    }
  }

  lemma FundedTx(b: Books, tx: Tx, h: nat, index: bool)
    requires Funded(b, h) && TxOk(b, tx) && FormatOk(tx)
    ensures Funded(ApplyTx(b, tx, h, index), h)
    ensures Total(ApplyTx(b, tx, h, index)) == Total(b) - 1
  {
    FundedBounded(b, h);
    hide Sound, NonNegative, FundsOk, Total, TxOk, FormatOk, ApplyRegistry, ApplyMoney, ApplyForum;
    SoundKept(b, tx, h, index);
    TxTotal(b, tx, h, index);
    TxNonNegative(b, tx, h, index);
    TxFunds(b, tx, h);
  }

  lemma {:induction false} FundedTxs(b: Books, txs: seq<Tx>, h: nat, index: bool)
    requires Funded(b, h) && TxsFit(b, txs, h, index)
    ensures Funded(ApplyTxs(b, txs, h, index), h)
    ensures Total(ApplyTxs(b, txs, h, index)) == Total(b) - |txs|
    decreases |txs|
  {
    hide Funded, TxOk, FormatOk, ApplyTx, Total;
    if txs != [] {
      var init := txs[..|txs| - 1];
      FundedTxs(b, init, h, index);
      FundedTx(ApplyTxs(b, init, h, index), txs[|txs| - 1], h, index);
    }
  }

  /** One topic expires: its balance goes to the reserve fund. */
  function ExpireOneBooks(b: Books): Books
    requires b.forum.queue != [] && b.forum.queue[0] in b.forum.topics
  {
    b.(forum := ExpireFront(b.forum), bal := AddBal(b.bal, RESERVE, b.forum.topics[b.forum.queue[0]].balance))
  }

  lemma AddBalKeys(m: Balances, who: Pubkey, v: int)
    requires who in m
    ensures AddBal(m, who, v).Keys == m.Keys
  {
    assert AddBal(m, who, v).Keys == m.Keys + {who};
  }

  lemma SoundExpireOne(b: Books, h: nat)
    requires Sound(b, h) && b.forum.queue != [] && b.forum.queue[0] in b.forum.topics
    ensures Sound(ExpireOneBooks(b), h)
  {
    hide Sound, ExpireFront, AddBal;
    var v := b.forum.topics[b.forum.queue[0]].balance;
    HasReserve(b, h);
    ExpireFrontSound(b, h);
    AddBalKeys(b.bal, RESERVE, v);
    BalancesSound(b.(forum := ExpireFront(b.forum)), h, AddBal(b.bal, RESERVE, v));
  }

  lemma FundedExpireOne(b: Books, h: nat)
    requires Funded(b, h) && b.forum.queue != [] && b.forum.queue[0] in b.forum.topics
    ensures Funded(ExpireOneBooks(b), h)
    ensures Total(ExpireOneBooks(b)) == Total(b)
  {
    hide Sound, NonNegative, FundsOk, Total, ExpireOneBooks;
    QueueNoDup(b, h);
    HasReserve(b, h);
    SoundExpireOne(b, h);
    ExpireOneCoins(b, h);
  }

  lemma ExpireOneCoins(b: Books, h: nat)
    requires NoDup(b.forum.queue) && RESERVE in b.bal && NonNegative(b) && FundsOk(b.forum)
    requires b.forum.queue != [] && b.forum.queue[0] in b.forum.topics
    ensures Total(ExpireOneBooks(b)) == Total(b)
    ensures NonNegative(ExpireOneBooks(b)) && FundsOk(ExpireOneBooks(b).forum)
  {
    hide MapSum, TopicFunds, LeaveAll;
    var f := b.forum;
    TailElements(f.queue);
    SumTopicsSame(f.queue[1..], f.topics, ExpireFront(f).topics);
    SumAdd(b.bal, RESERVE, f.topics[f.queue[0]].balance);
  }

  /** Forgetting ids changes no coin. */
  lemma FundedForget(b: Books, h: nat, m: map<Key, nat>)
    requires Funded(b, h) && Sound(b.(txMap := m), h)
    ensures Funded(b.(txMap := m), h)
    ensures Total(b.(txMap := m)) == Total(b)
  {
    hide Sound, MapSum, SumTopics;
  }

  lemma ExpireCoins(b: Books, h: nat)
    requires Sound(b, h) && NonNegative(b) && FundsOk(b.forum)
    ensures var d := b.(forum := Expire(b.forum, h), bal := AddBal(b.bal, RESERVE, Worth(ExpiredLog(b.forum, h))));
            Total(d) == Total(b) && NonNegative(d) && FundsOk(d.forum)
  {
    hide Sound, MapSum, SumTopics, Expire, ExpiredLog, ExpireOk, TopicFunds;
    HasReserve(b, h);
    ExpireSound(b, h);
    ExpireTotal(b, h);
    SumAdd(b.bal, RESERVE, Worth(ExpiredLog(b.forum, h)));
  }

  lemma FundedExpire(b: Books, h: nat)
    requires Funded(b, h)
    ensures Funded(b.(forum := Expire(b.forum, h), bal := AddBal(b.bal, RESERVE, Worth(ExpiredLog(b.forum, h)))), h)
  {
    hide Sound, NonNegative, FundsOk, Total, Expire, ExpiredLog, ExpireOk, LiveFrom, Worth;
    ExpiredBooks(b, h);
    ExpireCoins(b, h);
  }

  lemma FundedPrepare(s: State)
    requires SoundBoundary(s) && Funded(s.books, Height(s.cur))
    ensures Funded(NextBooks(s), Height(s.cur) + 1)
  {
    hide Sound, LiveFrom, FreshIds, IdMap, IndexOk, Expire, ExpiredLog, NonNegative, Total, FundsOk, PrepareOk;
    PrepareSound(s);
    var h := Height(s.cur) + 1;
    SoundOlder(s.books, h - 1, h);
    if h >= TOPIC_LIFE_TIME + 2 {
      FundedExpire(s.books, h);
      FundedForget(ExpireBooks(s.books, h), h, NextBooks(s).txMap);
    }
  }

  lemma FundedBlock(p: Books, b: Block)
    requires b.Block? && Funded(p, Height(b)) && LiveFrom(p.forum, Oldest(Height(b)))
    requires TxsFit(p, b.txs, Height(b), true) && b.miner in p.reg.accounts
    ensures Funded(BlockBooks(p, b), Height(b))
  {
    var h := Height(b);
    BlockTotal(p, b, h);
    AppliedBooks(p, b, h);
    FundedTxs(p, b.txs, h, true);
    hide Sound, NonNegative, Total, TopicFunds, TxsFit, PayMiner, ApplyTxs, LiveFrom;
  }

  lemma FundedStep(s: State, b: Block)
    requires SoundBoundary(s) && Funded(s.books, Height(s.cur)) && BlockOk(s, b)
    ensures Funded(ApplyBlock(s, b).books, Height(b))
  {
    BlockParts(s, b);
    hide SoundBoundary, Funded, NextBooks, BlockOk, ApplyBlock, BlockBooks, TxsFit, LiveFrom;
    ParentOf(s, b);
    FundedPrepare(s);
    PreparedLive(s);
    FundedBlock(NextBooks(s), b);
  }

  lemma BlockParts(s: State, b: Block)
    requires BlockOk(s, b)
    ensures TxsFit(NextBooks(s), b.txs, Height(b), true) && b.miner in s.books.reg.accounts
    ensures ApplyBlock(s, b).books == BlockBooks(NextBooks(s), b)
  {
    hide TxsFit, PrepareBooks, HeaderOk, PrepareOk, BlockBooks;
  }

  lemma PreparedLive(s: State)
    requires SoundBoundary(s)
    ensures LiveFrom(NextBooks(s).forum, Oldest(Height(s.cur) + 1))
    ensures NextBooks(s).reg == s.books.reg
  {
    hide SoundBoundary, NextBooks, LiveFrom;
    PrepareSound(s);
  }

  lemma InitialFunded()
    ensures Funded(INITIAL.books, 0)
  {
    InitialTotal();
    InitialBoundary();
  }
}
