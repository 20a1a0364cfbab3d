/** The books: everything a transaction reads or writes, the transaction itself, and its reverse.

    Balances are unbounded integers here; the ledger class does the same arithmetic on uint64 and proves
    that no operation wraps. Pointers are modelled by the keys of what they point to, and the members of
    Account that change (balance, own topics, joined topics) are kept in one map each. */
module Books {
  import opened Lists
  import opened Chain

  const TOPIC_LIFE_TIME: nat := 4320

  /** The key of the reserve fund account, which has no entry by public key. */
  const RESERVE: Pubkey := NoKey

  datatype Account = Account(id: nat, name: Name, avatar: nat, born: nat, referrer: Option<Pubkey>)

  /** `reward` is the reply type: false for a normal reply (0), true for a reward (1). */
  datatype Reply = Reply(key: Key, reward: bool, owner: Pubkey, to: Option<Key>, balance: int)

  datatype Member = Member(txId: Key, who: Pubkey)

  datatype Topic = Topic(
    owner: Pubkey, born: nat, total: int, balance: int, replies: seq<Reply>, members: seq<Member>)

  datatype Registry = Registry(
    accounts: map<Pubkey, Account>, byId: map<nat, Pubkey>, names: set<Name>, curId: nat)

  datatype Forum = Forum(
    topics: map<Key, Topic>, queue: seq<Key>, owned: map<Pubkey, seq<Key>>, joined: map<Pubkey, seq<Key>>)

  type Balances = map<Pubkey, int>

  datatype Books = Books(reg: Registry, bal: Balances, forum: Forum, txMap: map<Key, nat>)

  function ListAt(m: map<Pubkey, seq<Key>>, who: Pubkey): seq<Key> {
    if who in m then m[who] else []
  }

  function OwnerOf(k: Key): Pubkey {
    if k.Hash? then k.tx.pubkey else RESERVE
  }

  function Payer(tx: Tx): Pubkey {
    if tx.body.TxReg? then tx.body.referrer else tx.pubkey
  }

  /** Where the referrer's coin of a fee goes: the reserve fund when the payer has no referrer. */
  function Referrer(reg: Registry, payer: Pubkey): Pubkey {
    if payer in reg.accounts && reg.accounts[payer].referrer.Some? then reg.accounts[payer].referrer.value else RESERVE
  }

  /** Topic::get_reply: the first reply with the key, or the length of the list when there is none. */
  function FindReply(rs: seq<Reply>, key: Key): (i: nat)
    ensures i <= |rs|
    ensures i < |rs| ==> rs[i].key == key
    ensures forall j :: 0 <= j < i ==> rs[j].key != key
  {
    if rs == [] || rs[0].key == key then 0 else 1 + FindReply(rs[1..], key)
  }

  function ReplyOwner(t: Topic, to: Key): Pubkey {
    var i := FindReply(t.replies, to);
    if i < |t.replies| then t.replies[i].owner else RESERVE
  }

  predicate NormalReplyAt(t: Topic, key: Key) {
    var i := FindReply(t.replies, key);
    i < |t.replies| && !t.replies[i].reward
  }

  predicate IsMember(t: Topic, who: Pubkey) {
    exists i :: 0 <= i < |t.members| && t.members[i].who == who
  }

  // ---- Checks

  /** The formats, which need neither ledger nor height. */
  predicate FormatOk(tx: Tx) {
    && tx.pubkey.Pub?
    && tx.blockId != 0
    && tx.fee == 2
    && match tx.body
       case TxReg(name, _, avatar) => 4 <= |name.base64| <= 20 && 1 <= avatar <= 100
       case TxSend(_, amount) => amount != 0
       case TxTopic(reward) => reward != 0
       case TxReply(_, _) => true
       case TxReward(_, _, paid) => paid != 0
  }

  /** The block-id window of block `h`. */
  predicate InWindow(tx: Tx, h: nat) {
    h <= tx.blockId + 100 && tx.blockId <= h + 100
  }

  /** The checks made against the ledger before the fee is charged. */
  predicate FeeOk(b: Books, tx: Tx) {
    && Hash(tx) !in b.txMap
    && Payer(tx) in b.reg.accounts
    && Payer(tx) in b.bal
    && b.bal[Payer(tx)] >= 2
    && (b.reg.accounts[Payer(tx)].referrer.None? ==> b.reg.accounts[Payer(tx)].id <= 1)
    && (tx.body.TxReg? ==> tx.pubkey !in b.reg.accounts && tx.body.name !in b.reg.names)
  }

  /** Whether this reply makes its author a member of the topic. */
  predicate Joins(f: Forum, tx: Tx) {
    && tx.body.TxReply?
    && tx.body.topicKey in f.topics
    && f.topics[tx.body.topicKey].owner != tx.pubkey
    && tx.body.topicKey !in ListAt(f.joined, tx.pubkey)
  }

  predicate ForumOk(f: Forum, tx: Tx) {
    match tx.body
    case TxReg(_, _, _) => true
    case TxSend(_, _) => true
    case TxTopic(_) => Hash(tx) !in f.topics && |ListAt(f.owned, tx.pubkey)| < 100
    case TxReply(k, to) =>
      && k in f.topics
      && |f.topics[k].replies| < 1000
      && (to.Some? ==> NormalReplyAt(f.topics[k], to.value))
      && (Joins(f, tx) ==> |ListAt(f.joined, tx.pubkey)| < 100)
    case TxReward(k, to, paid) =>
      && k in f.topics
      && f.topics[k].owner == tx.pubkey
      && |f.topics[k].replies| < 1000
      && f.topics[k].balance >= paid
      && NormalReplyAt(f.topics[k], to)
      && ReplyOwner(f.topics[k], to) != tx.pubkey
  }

  /** The amount the sender must still have after the fee. */
  function Spent(tx: Tx): int {
    match tx.body
    case TxSend(_, amount) => amount
    case TxTopic(reward) => reward
    case _ => 0
  }

  predicate TxOk(b: Books, tx: Tx) {
    && FeeOk(b, tx)
    && b.bal[Payer(tx)] + FeeDelta(Payer(tx), Referrer(b.reg, Payer(tx)), Payer(tx)) >= Spent(tx)
    && (tx.body.TxSend? ==> tx.body.receiver in b.reg.accounts)
    && ForumOk(b.forum, tx)
  }

  // ---- Money

  function Move(x: Pubkey, who: Pubkey, v: int): int {
    if x == who then v else 0
  }

  /** The fee of 2: one coin to the payer's referrer, one kept for the miner. */
  function FeeDelta(payer: Pubkey, referrer: Pubkey, x: Pubkey): int {
    Move(x, referrer, 1) - Move(x, payer, 2)
  }

  function BodyDelta(tx: Tx, paidTo: Pubkey, x: Pubkey): int {
    match tx.body
    case TxSend(receiver, amount) => Move(x, receiver, amount) - Move(x, tx.pubkey, amount)
    case TxTopic(reward) => 0 - Move(x, tx.pubkey, reward)
    case TxReward(_, _, paid) => Move(x, paidTo, paid)
    case _ => 0
  }

  /** The owner of the reply a reward pays. */
  function PaidTo(f: Forum, tx: Tx): Pubkey {
    if tx.body.TxReward? && tx.body.topicKey in f.topics
    then ReplyOwner(f.topics[tx.body.topicKey], tx.body.toReply) else RESERVE
  }

  /** What `tx` adds to the balance of `x`. */
  function Delta(reg: Registry, f: Forum, tx: Tx, x: Pubkey): int {
    FeeDelta(Payer(tx), Referrer(reg, Payer(tx)), x) + BodyDelta(tx, PaidTo(f, tx), x)
  }

  function ApplyMoney(b: Books, tx: Tx): Balances {
    var m := map x | x in b.bal :: b.bal[x] + Delta(b.reg, b.forum, tx, x);
    if tx.body.TxReg? then m[tx.pubkey := 0] else m
  }

  function UndoMoney(b: Books, tx: Tx): Balances {
    var m := map x | x in b.bal :: b.bal[x] - Delta(b.reg, b.forum, tx, x);
    if tx.body.TxReg? then m - {tx.pubkey} else m
  }

  // ---- Registry

  /** `index` tells whether a new account is entered in m_account_by_id, which every copy of this code
      does except mine_tx. */
  function ApplyRegistry(reg: Registry, tx: Tx, h: nat, index: bool): Registry {
    match tx.body
    case TxReg(name, referrer, avatar) =>
      Registry(reg.accounts[tx.pubkey := Account(reg.curId + 1, name, avatar, h, Some(referrer))],
               if index then reg.byId[reg.curId + 1 := tx.pubkey] else reg.byId,
               reg.names + {name},
               reg.curId + 1)
    case _ => reg
  }

  function UndoRegistry(reg: Registry, tx: Tx, index: bool): Registry {
    match tx.body
    case TxReg(name, _, _) =>
      Registry(reg.accounts - {tx.pubkey},
               if index then reg.byId - {reg.curId} else reg.byId,
               reg.names - {name},
               if reg.curId > 0 then reg.curId - 1 else 0)
    case _ => reg
  }

  // ---- Forum

  function AddReply(t: Topic, r: Reply): Topic {
    t.(replies := t.replies + [r])
  }

  /** Topic::add_member. */
  function AddMember(t: Topic, txId: Key, who: Pubkey): Topic {
    if IsMember(t, who) then t else t.(members := t.members + [Member(txId, who)])
  }

  /** Moves `v` coins from the topic's own balance to the reply it rewards. */
  function PayReply(t: Topic, to: Key, v: int): Topic {
    var i := FindReply(t.replies, to);
    if i < |t.replies|
    then t.(balance := t.balance - v, replies := t.replies[i := t.replies[i].(balance := t.replies[i].balance + v)])
    else t
  }

  function ForumReg(f: Forum, tx: Tx): Forum {
    f.(owned := f.owned[tx.pubkey := []], joined := f.joined[tx.pubkey := []])
  }

  function ForumTopic(f: Forum, tx: Tx, reward: int, h: nat): Forum {
    Forum(f.topics[Hash(tx) := Topic(tx.pubkey, h, reward, reward, [], [])],
          f.queue + [Hash(tx)],
          f.owned[tx.pubkey := ListAt(f.owned, tx.pubkey) + [Hash(tx)]],
          f.joined)
  }

  function ForumReply(f: Forum, tx: Tx, k: Key, to: Option<Key>): Forum {
    if k !in f.topics then f else
    var r := Reply(Hash(tx), false, tx.pubkey, to, 0);
    if Joins(f, tx)
    then f.(topics := f.topics[k := AddReply(AddMember(f.topics[k], Hash(tx), tx.pubkey), r)],
            joined := f.joined[tx.pubkey := ListAt(f.joined, tx.pubkey) + [k]])
    else f.(topics := f.topics[k := AddReply(f.topics[k], r)])
  }

  function ForumReward(f: Forum, tx: Tx, k: Key, to: Key, paid: int): Forum {
    if k !in f.topics then f else
    var r := Reply(Hash(tx), true, tx.pubkey, Some(to), paid);
    f.(topics := f.topics[k := AddReply(PayReply(f.topics[k], to, paid), r)])
  }

  function ApplyForum(f: Forum, tx: Tx, h: nat): Forum {
    match tx.body
    case TxReg(_, _, _) => ForumReg(f, tx)
    case TxSend(_, _) => f
    case TxTopic(reward) => ForumTopic(f, tx, reward, h)
    case TxReply(k, to) => ForumReply(f, tx, k, to)
    case TxReward(k, to, paid) => ForumReward(f, tx, k, to, paid)
  }

  function DropReply(t: Topic): Topic {
    t.(replies := DropLast(t.replies))
  }

  function UnReg(f: Forum, tx: Tx): Forum {
    f.(owned := f.owned - {tx.pubkey}, joined := f.joined - {tx.pubkey})
  }

  function UnTopic(f: Forum, tx: Tx): Forum {
    Forum(f.topics - {Hash(tx)},
          DropLast(f.queue),
          f.owned[tx.pubkey := DropLast(ListAt(f.owned, tx.pubkey))],
          f.joined)
  }

  /** Whether the last member of the topic was added by `tx`, which is how the reverse loop decides. */
  predicate AddedLast(t: Topic, tx: Tx) {
    t.owner != tx.pubkey && t.members != [] && t.members[|t.members| - 1].txId == Hash(tx)
  }

  function UnReply(f: Forum, tx: Tx, k: Key): Forum {
    if k !in f.topics then f else
    var t := DropReply(f.topics[k]);
    if AddedLast(t, tx)
    then f.(topics := f.topics[k := t.(members := DropLast(t.members))],
            joined := f.joined[tx.pubkey := DropLast(ListAt(f.joined, tx.pubkey))])
    else f.(topics := f.topics[k := t])
  }

  function UnReward(f: Forum, tx: Tx, k: Key, to: Key, paid: int): Forum {
    if k !in f.topics then f else
    f.(topics := f.topics[k := DropReply(PayReply(f.topics[k], to, 0 - paid))])
  }

  function UndoForum(f: Forum, tx: Tx): Forum {
    match tx.body
    case TxReg(_, _, _) => UnReg(f, tx)
    case TxSend(_, _) => f
    case TxTopic(_) => UnTopic(f, tx)
    case TxReply(k, _) => UnReply(f, tx, k)
    case TxReward(k, to, paid) => UnReward(f, tx, k, to, paid)
  }

  // ---- The transaction and its reverse

  function ApplyTx(b: Books, tx: Tx, h: nat, index: bool): Books {
    Books(ApplyRegistry(b.reg, tx, h, index),
          ApplyMoney(b, tx),
          ApplyForum(b.forum, tx, h),
          b.txMap[Hash(tx) := h])
  }

  /** One turn of the reverse loop. */
  function UndoTx(b: Books, tx: Tx, index: bool): Books {
    Books(UndoRegistry(b.reg, tx, index),
          UndoMoney(b, tx),
          UndoForum(b.forum, tx),
          b.txMap - {Hash(tx)})
  }
}
