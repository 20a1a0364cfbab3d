/** The ledger object: the hand-copied loops of start, mined_new_block, mine_tx, rollback and
    switch_to_most_difficult, on uint64 balances, proved against the functions of Books and Blocks. */
module Ledger {
  import opened Numbers
  import opened Lists
  import opened Sums
  import opened Chain
  import opened Books
  import opened Inverse
  import opened Invariant
  import opened Expiry
  import opened Blocks
  import opened Replayed
  import opened UndoLogs
  import opened Fidelity
  import opened Rollbacks
  import opened Stripped
  import opened Bare
  import opened Cores
  import opened Membership
  import opened Runs
  import opened Conservation
  import opened Solvency
  import opened Effects
  import opened Reversible
  import opened LedgerFacts
  import opened Census
  import opened Standing
  import opened Selection

  /** The copies of "apply a transaction": start and switch_to_most_difficult have the same statements. */
  datatype Copy = Replaying | Mined | Speculative

  class Ledger {
    var reg: Registry
    var bal: Balances
    var forum: Forum
    var txMap: map<Key, nat>
    var undoTopics: map<nat, seq<Expired>>
    var undoTxs: map<nat, Forgotten>
    var cur: Block
    var byHeight: map<nat, Block>
    var inMain: set<Block>
    var rewarded: map<Block, bool>

    /** Set by every balance operation whose exact result does not fit in a uint64. */
    ghost var wrapped: bool

    /** The highest block ever prepared. */
    ghost var top: nat

    /** How often mine_tx tried a transaction. */
    ghost var tries: nat

    /** The ledger is the one start would rebuild for its branch, and no balance ever wrapped. */
    ghost predicate Valid()
      reads this
    {
      Faithful(S(), top) && !wrapped
    }

    /** It is, but for what the joined lists hold. */
    ghost predicate Tracking()
      reads this
    {
      Tracks(S(), top) && !wrapped
    }

    /** It is, but for what joined lists and the members of topics hold. */
    ghost predicate Running()
      reads this
    {
      Steady(S(), top) && !wrapped
    }

    /** Blocks can be connected safely, whatever the joined lists hold. */
    ghost predicate Safe()
      reads this
    {
      SoundBoundary(S()) && Funded(Now(), Height(cur)) && !wrapped
    }

    /** Each of the four implies the next. */
    lemma Weaker()
      ensures Valid() ==> Tracking()
      ensures Tracking() ==> Running()
      ensures Running() ==> Safe()
    {
      hide Tracks, Steady, SoundBoundary, Funded, Total;
      if Tracking() {
        TracksSteady(S(), top);
      }
      if Running() {
        SteadyFunded(S(), top);
      }
    }

    /** The ledger of a chain that holds only the genesis block. */
    constructor ()
      ensures S() == INITIAL && Valid() && top == 0
    {
      reg, bal, forum, txMap := INITIAL.books.reg, INITIAL.books.bal, INITIAL.books.forum, INITIAL.books.txMap;
      undoTopics, undoTxs := map[], map[];
      cur, byHeight, inMain, rewarded := Genesis, map[0 := Genesis], {Genesis}, map[];
      wrapped, top, tries := false, 0, 0;
      new;
      InitialFaithful();
    }

    function Now(): Books
      reads this
    {
      Books(reg, bal, forum, txMap)
    }

    function S(): State
      reads this
    {
      State(Now(), undoTopics, undoTxs, cur, byHeight, inMain, rewarded)
    }

    // ---- Account and topic balances

    /** Account::add_balance. */
    method AddBalance(who: Pubkey, v: int)
      requires who in bal && v >= 0
      modifies this`bal, this`wrapped
      ensures bal == old(bal)[who := U64(old(bal)[who] + v)]
      ensures wrapped == (old(wrapped) || old(bal)[who] + v >= TWO64)
    {
      wrapped := wrapped || bal[who] + v >= TWO64;
      bal := bal[who := U64(bal[who] + v)];
    }

    /** Account::sub_balance. */
    method SubBalance(who: Pubkey, v: int)
      requires who in bal && v >= 0
      modifies this`bal, this`wrapped
      ensures bal == old(bal)[who := U64(old(bal)[who] - v)]
      ensures wrapped == (old(wrapped) || old(bal)[who] < v)
    {
      wrapped := wrapped || bal[who] < v;
      bal := bal[who := U64(bal[who] - v)];
    }

    /** The fee: mined_new_block and mine_tx credit the referrer before they charge the payer, start and
        switch_to_most_difficult after. */
    method ChargeFee(payer: Pubkey, copy: Copy)
      requires payer in bal && Referrer(reg, payer) in bal && bal[payer] >= 2
      requires forall p :: p in bal ==> 0 <= bal[p] <= TOTAL
      modifies this`bal, this`wrapped
      ensures bal == WithFee(old(bal), payer, Referrer(reg, payer))
      ensures forall r :: Invited(reg, payer, r) ==> r in old(bal) && bal == Fee(old(bal), payer, r)
      ensures wrapped == old(wrapped)
    {
      hide U64, Invited, Fee, Referrer;
      var referrer := Referrer(reg, payer);
      ChargedFee(reg, bal, payer);
      if copy == Replaying {
        SubBalance(payer, 2);
        AddBalance(referrer, 1);
      } else {
        AddBalance(referrer, 1);
        SubBalance(payer, 2);
      }
      assert bal == WithFee(old(bal), payer, referrer);
    }

    /** mine_tx's failed_cb. */
    method CancelFee(payer: Pubkey, ghost before: Balances)
      requires payer in before && Referrer(reg, payer) in before
      requires bal == WithFee(before, payer, Referrer(reg, payer))
      requires forall p :: p in before ==> 0 <= before[p] <= TOTAL
      requires before[payer] >= 2
      modifies this`bal, this`wrapped
      ensures bal == before
      ensures wrapped == old(wrapped)
    {
      hide U64;
      AddBalance(payer, 2);
      SubBalance(Referrer(reg, payer), 1);
      assert bal == before;
    }

    // ---- Lookups

    /** Topic::get_reply. */
    method GetReply(t: Topic, key: Key) returns (i: nat)
      ensures i == FindReply(t.replies, key)
    {
      i := 0;
      while i < |t.replies| && t.replies[i].key != key
        invariant i <= |t.replies|
        invariant forall j :: 0 <= j < i ==> t.replies[j].key != key
      {
        i := i + 1;
      }
      var k := FindReply(t.replies, key);
      assert i < |t.replies| ==> t.replies[i].key == key;
      assert k < |t.replies| ==> t.replies[k].key == key;
    }

    /** Account::joined_topic. */
    method JoinedTopic(who: Pubkey, k: Key) returns (yes: bool)
      ensures yes <==> k in ListAt(forum.joined, who)
    {
      var list := ListAt(forum.joined, who);
      var i := 0;
      while i < |list|
        invariant i <= |list|
        invariant forall j :: 0 <= j < i ==> list[j] != k
      {
        if list[i] == k {
          return true;
        }
        i := i + 1;
      }
      return false;
    }

    /** Topic::add_member. */
    method MemberAdded(t: Topic, txId: Key, who: Pubkey) returns (u: Topic)
      ensures u == AddMember(t, txId, who)
    {
      var i := 0;
      while i < |t.members|
        invariant i <= |t.members|
        invariant forall j :: 0 <= j < i ==> t.members[j].who != who
      {
        if t.members[i].who == who {
          return t;
        }
        i := i + 1;
      }
      u := t.(members := t.members + [Member(txId, who)]);
    }

    // ---- The five transactions, after the fee

    method Register(tx: Tx, h: nat, index: bool)
      requires tx.body.TxReg?
      modifies this`reg, this`bal, this`forum
      ensures reg == ApplyRegistry(old(reg), tx, h, index)
      ensures bal == old(bal)[tx.pubkey := 0]
      ensures forum == ApplyForum(old(forum), tx, h)
    {
      var id := reg.curId + 1;
      reg := reg.(curId := id);
      reg := reg.(names := reg.names + {tx.body.name});
      var account := Account(id, tx.body.name, tx.body.avatar, h, Some(tx.body.referrer));
      reg := reg.(accounts := reg.accounts[tx.pubkey := account]);
      if index {
        reg := reg.(byId := reg.byId[id := tx.pubkey]);
      }
      bal := bal[tx.pubkey := 0];
      forum := forum.(owned := forum.owned[tx.pubkey := []], joined := forum.joined[tx.pubkey := []]);
    }

    method Send(tx: Tx) returns (ok: bool)
      requires tx.body.TxSend? && tx.pubkey in bal
      requires forall p :: p in reg.accounts ==> p in bal
      requires forall p :: p in bal ==> 0 <= bal[p] <= TOTAL + 1
      modifies this`bal, this`wrapped
      ensures ok <==> old(bal)[tx.pubkey] >= tx.body.amount && tx.body.receiver in reg.accounts
      ensures !ok ==> bal == old(bal)
      ensures ok ==> bal == WithBody(old(bal), tx, RESERVE)
      ensures wrapped == old(wrapped)
    {
      hide U64;
      if bal[tx.pubkey] < tx.body.amount || tx.body.receiver !in reg.accounts {
        return false;
      }
      SubBalance(tx.pubkey, tx.body.amount);
      AddBalance(tx.body.receiver, tx.body.amount);
      assert bal == WithBody(old(bal), tx, RESERVE);
      return true;
    }

    method NewTopic(tx: Tx, h: nat) returns (ok: bool)
      requires tx.body.TxTopic? && tx.pubkey in bal
      requires forall p :: p in bal ==> 0 <= bal[p] <= TOTAL + 1
      modifies this`bal, this`forum, this`wrapped
      ensures ok <==> old(bal)[tx.pubkey] >= tx.body.reward && ForumOk(old(forum), tx)
      ensures !ok ==> bal == old(bal) && forum == old(forum)
      ensures ok ==> bal == WithBody(old(bal), tx, RESERVE) && forum == ApplyForum(old(forum), tx, h)
      ensures wrapped == old(wrapped)
    {
      hide U64;
      if bal[tx.pubkey] < tx.body.reward || Hash(tx) in forum.topics || |ListAt(forum.owned, tx.pubkey)| >= 100 {
        return false;
      }
      SubBalance(tx.pubkey, tx.body.reward);
      assert bal == WithBody(old(bal), tx, RESERVE);
      var topic := Topic(tx.pubkey, h, tx.body.reward, tx.body.reward, [], []);
      forum := forum.(owned := forum.owned[tx.pubkey := ListAt(forum.owned, tx.pubkey) + [Hash(tx)]]);
      forum := forum.(queue := forum.queue + [Hash(tx)]);
      forum := forum.(topics := forum.topics[Hash(tx) := topic]);
      return true;
    }

    /** The reply, in the two orders of the source: start and switch_to_most_difficult append it before they look
        up the reply it answers, mined_new_block and mine_tx after. */
    method PostReply(tx: Tx, copy: Copy, ghost h: nat) returns (ok: bool)
      requires tx.body.TxReply?
      modifies this`forum
      ensures ok <==> ForumOk(old(forum), tx)
      ensures !ok && copy != Replaying ==> forum == old(forum)
      ensures ok ==> forum == ApplyForum(old(forum), tx, h)
    {
      hide NormalReplyAt, FindReply, IsMember;
      var k := tx.body.topicKey;
      if k !in forum.topics || |forum.topics[k].replies| >= 1000 {
        return false;
      }
      var reply := Reply(Hash(tx), false, tx.pubkey, tx.body.replyTo, 0);
      if copy == Replaying {
        forum := forum.(topics := forum.topics[k := AddReply(forum.topics[k], reply)]);
      }
      if tx.body.replyTo.Some? {
        var found := NormalReply(forum.topics[k], tx.body.replyTo.value);
        AppendedReply(old(forum).topics[k], reply, tx.body.replyTo.value);
        if !found {
          return false;
        }
      }
      if forum.topics[k].owner != tx.pubkey {
        var joined := JoinedTopic(tx.pubkey, k);
        if !joined {
          if |ListAt(forum.joined, tx.pubkey)| >= 100 {
            return false;
          }
          forum := forum.(joined := forum.joined[tx.pubkey := ListAt(forum.joined, tx.pubkey) + [k]]);
          var t := MemberAdded(forum.topics[k], Hash(tx), tx.pubkey);
          forum := forum.(topics := forum.topics[k := t]);
          SameMembers(old(forum).topics[k], reply, Hash(tx), tx.pubkey);
        }
      }
      if copy != Replaying {
        forum := forum.(topics := forum.topics[k := AddReply(forum.topics[k], reply)]);
      }
      return true;
    }

    /** get_reply followed by the test of the reply's type. */
    method NormalReply(t: Topic, key: Key) returns (yes: bool)
      ensures yes <==> NormalReplyAt(t, key)
    {
      var i := GetReply(t, key);
      return i < |t.replies| && !t.replies[i].reward;
    }

    method SubTopicBalance(k: Key, v: int)
      requires k in forum.topics && v >= 0
      modifies this`forum, this`wrapped
      ensures var t := old(forum).topics[k];
              forum == old(forum).(topics := old(forum).topics[k := t.(balance := U64(t.balance - v))])
      ensures wrapped == (old(wrapped) || old(forum).topics[k].balance < v)
    {
      wrapped := wrapped || forum.topics[k].balance < v;
      forum := forum.(topics := forum.topics[k := forum.topics[k].(balance := U64(forum.topics[k].balance - v))]);
    }

    method AddTopicBalance(k: Key, v: int)
      requires k in forum.topics && v >= 0
      modifies this`forum, this`wrapped
      ensures var t := old(forum).topics[k];
              forum == old(forum).(topics := old(forum).topics[k := t.(balance := U64(t.balance + v))])
      ensures wrapped == (old(wrapped) || old(forum).topics[k].balance + v >= TWO64)
    {
      wrapped := wrapped || forum.topics[k].balance + v >= TWO64;
      forum := forum.(topics := forum.topics[k := forum.topics[k].(balance := U64(forum.topics[k].balance + v))]);
    }

    /** Adds `v`, which may be negative, to the balance of one reply. */
    method MoveReplyBalance(k: Key, i: nat, v: int)
      requires k in forum.topics && i < |forum.topics[k].replies|
      modifies this`forum, this`wrapped
      ensures forum == old(forum).(topics := old(forum).topics[k := WithReplyBalance(old(forum).topics[k], i,
                                                                     U64(old(forum).topics[k].replies[i].balance + v))])
      ensures wrapped == (old(wrapped) || !(0 <= old(forum).topics[k].replies[i].balance + v < TWO64))
    {
      var t := forum.topics[k];
      wrapped := wrapped || !(0 <= t.replies[i].balance + v < TWO64);
      forum := forum.(topics := forum.topics[k := WithReplyBalance(t, i, U64(t.replies[i].balance + v))]);
    }

    /** The checks of a reward; `i` is where the rewarded reply stands. */
    method FindRewarded(tx: Tx) returns (ok: bool, i: nat)
      requires tx.body.TxReward?
      ensures ok <==> ForumOk(forum, tx)
      ensures ok ==> var k := tx.body.topicKey;
                     && k in forum.topics && tx.body.paid <= forum.topics[k].balance
                     && i == FindReply(forum.topics[k].replies, tx.body.toReply) < |forum.topics[k].replies|
                     && !forum.topics[k].replies[i].reward
                     && forum.topics[k].replies[i].owner == PaidTo(forum, tx)
    {
      var k, to, paid := tx.body.topicKey, tx.body.toReply, tx.body.paid;
      i := 0;
      if k !in forum.topics || forum.topics[k].owner != tx.pubkey || |forum.topics[k].replies| >= 1000
         || forum.topics[k].balance < paid {
        return false, i;
      }
      i := GetReply(forum.topics[k], to);
      ok := i < |forum.topics[k].replies| && !forum.topics[k].replies[i].reward
            && forum.topics[k].replies[i].owner != tx.pubkey;
    }

    method PayReward(tx: Tx, ghost h: nat) returns (ok: bool)
      requires tx.body.TxReward?
      requires forall p :: p in bal ==> 0 <= bal[p] <= TOTAL + 1
      requires BoundedForum(forum)
      requires ForumOk(forum, tx) ==> PaidTo(forum, tx) in bal
      modifies this`bal, this`forum, this`wrapped
      ensures ok <==> ForumOk(old(forum), tx)
      ensures !ok ==> bal == old(bal) && forum == old(forum)
      ensures ok ==> bal == WithBody(old(bal), tx, PaidTo(old(forum), tx)) && forum == ApplyForum(old(forum), tx, h)
      ensures wrapped == old(wrapped)
    {
      hide U64, ForumOk, FindReply, PaidTo, PayReply;
      var i;
      ok, i := FindRewarded(tx);
      if !ok {
        return;
      }
      var k, to, paid := tx.body.topicKey, tx.body.toReply, tx.body.paid;
      ghost var t := forum.topics[k];
      var owner := forum.topics[k].replies[i].owner;
      PaidTopic(t, to, paid);
      SubTopicBalance(k, paid);
      MoveReplyBalance(k, i, paid);
      AddBalance(owner, paid);
      assert bal == WithBody(old(bal), tx, owner);
      assert forum.topics[k] == PayReply(t, to, paid);
      var reply := Reply(Hash(tx), true, tx.pubkey, Some(to), paid);
      forum := forum.(topics := forum.topics[k := AddReply(forum.topics[k], reply)]);
    }

    // ---- One transaction

    /** A transaction as each copy applies it. A failed check ends the process in the replaying and mining copies;
        mine_tx gives the fee back and goes on. The pool has checked the formats, and mine_tx does not look at the
        block-id window. */
    method ApplyTransaction(tx: Tx, h: nat, copy: Copy) returns (ok: bool)
      requires Sound(Now(), h) && Bounded(Now())
      requires copy == Speculative ==> FormatOk(tx)
      modifies this`reg, this`bal, this`forum, this`txMap, this`wrapped
      ensures ok <==> FormatOk(tx) && (copy == Speculative || InWindow(tx, h)) && TxOk(old(Now()), tx)
      ensures ok ==> Now() == ApplyTx(old(Now()), tx, h, copy != Speculative)
      ensures !ok && copy == Speculative ==> Now() == old(Now())
      ensures wrapped == old(wrapped)
    {
      hide FormatOk, InWindow, TxOk, FeeOk, ApplyForum, ApplyRegistry, ApplyMoney, Sound, Bounded;
      ok := CheckFee(tx, h);
      if !ok || (copy != Speculative && !(FormatOk(tx) && InWindow(tx, h))) {
        NeedsFee(Now(), tx);
        return false;
      }
      ok := ChargeAndApply(tx, h, copy);
      if ok {
        txMap := txMap[Hash(tx) := h];
      }
    }

    /** The fee and the body; mine_tx takes the fee back when the body fails. */
    method ChargeAndApply(tx: Tx, h: nat, copy: Copy) returns (ok: bool)
      requires Sound(Now(), h) && Bounded(Now()) && FeeOk(Now(), tx)
      modifies this`reg, this`bal, this`forum, this`wrapped
      ensures ok <==> TxOk(old(Now()), tx)
      ensures ok ==> && reg == ApplyRegistry(old(reg), tx, h, copy != Speculative)
                     && bal == ApplyMoney(old(Now()), tx)
                     && forum == ApplyForum(old(forum), tx, h)
      ensures !ok && copy == Speculative ==> reg == old(reg) && bal == old(bal) && forum == old(forum)
      ensures wrapped == old(wrapped)
    {
      hide FormatOk, TxOk, FeeOk, BodyOk, ForumOk, ApplyForum, ApplyRegistry, ApplyMoney, BodyBalances, WithFee, Sound,
           PaidTo, BoundedForum, Referrer, Payer;
      ghost var b := Now();
      BodyAsTx(b, tx);
      PayerFacts(b, tx, h);
      AfterFee(b, h, Payer(tx));
      PayeeKnown(b, tx, h);
      var payer := Payer(tx);
      ChargeFee(payer, copy);
      ok := ApplyBody(tx, h, copy);
      if !ok && copy == Speculative {
        CancelFee(payer, b.bal);
      }
    }

    /** The checks before the fee is charged. */
    method CheckFee(tx: Tx, ghost h: nat) returns (ok: bool)
      requires Sound(Now(), h)
      ensures ok <==> FeeOk(Now(), tx)
    {
      hide Sound;
      if Hash(tx) in txMap {
        return false;
      }
      if tx.body.TxReg? && (tx.pubkey in reg.accounts || tx.body.name in reg.names) {
        return false;
      }
      var payer := Payer(tx);
      if payer !in reg.accounts {
        return false;
      }
      AccountFacts(Now(), h, payer);
      return bal[payer] >= 2;
    }

    /** The five branches, once the fee is charged. */
    method ApplyBody(tx: Tx, h: nat, copy: Copy) returns (ok: bool)
      requires !tx.body.TxReg? ==> tx.pubkey in bal
      requires forall p :: p in reg.accounts ==> p in bal
      requires forall p :: p in bal ==> 0 <= bal[p] <= TOTAL + 1
      requires BoundedForum(forum)
      requires tx.body.TxReward? && ForumOk(forum, tx) ==> PaidTo(forum, tx) in bal
      modifies this`reg, this`bal, this`forum, this`wrapped
      ensures ok <==> BodyOk(old(bal), old(reg), old(forum), tx)
      ensures ok ==> && reg == ApplyRegistry(old(reg), tx, h, copy != Speculative)
                     && forum == ApplyForum(old(forum), tx, h)
                     && bal == BodyBalances(old(bal), tx, PaidTo(old(forum), tx))
      ensures !ok && copy == Speculative ==> reg == old(reg) && bal == old(bal) && forum == old(forum)
      ensures wrapped == old(wrapped)
    {
      BodyCases(bal, reg, forum, tx, h, copy != Speculative);
      hide ApplyForum, ApplyRegistry, ForumOk, WithBody, PaidTo, BodyOk, BodyBalances, BoundedForum;
      match tx.body {
        case TxReg(_, _, _) =>
          Register(tx, h, copy != Speculative);
          return true;
        case TxSend(_, _) =>
          ok := Send(tx);
        case TxTopic(_) =>
          ok := NewTopic(tx, h);
        case TxReply(_, _) =>
          ok := PostReply(tx, copy, h);
        case TxReward(_, _, _) =>
          ok := PayReward(tx, h);
      }
    }

    // ---- One transaction taken back

    /** The fee given back: rollback pays the payer first, mine_tx takes from the referrer first. */
    method RefundFee(payer: Pubkey, copy: Copy)
      requires payer in bal && Referrer(reg, payer) in bal && Referrer(reg, payer) != payer
      requires bal[Referrer(reg, payer)] >= 1
      requires forall p :: p in bal ==> 0 <= bal[p] <= TOTAL
      modifies this`bal, this`wrapped
      ensures bal == WithoutFee(old(bal), payer, Referrer(reg, payer))
      ensures wrapped == old(wrapped)
    {
      hide U64;
      var referrer := Referrer(reg, payer);
      if copy == Speculative {
        SubBalance(referrer, 1);
        AddBalance(payer, 2);
      } else {
        AddBalance(payer, 2);
        SubBalance(referrer, 1);
      }
      assert bal == WithoutFee(old(bal), payer, referrer);
    }

    method Unregister(tx: Tx, index: bool)
      requires tx.body.TxReg? && reg.curId > 0
      modifies this`reg, this`bal, this`forum
      ensures reg == UndoRegistry(old(reg), tx, index)
      ensures bal == old(bal) - {tx.pubkey}
      ensures forum == UnReg(old(forum), tx)
    {
      reg := reg.(names := reg.names - {tx.body.name});
      reg := reg.(accounts := reg.accounts - {tx.pubkey});
      if index {
        reg := reg.(byId := reg.byId - {reg.curId});
      }
      reg := reg.(curId := reg.curId - 1);
      bal := bal - {tx.pubkey};
      forum := forum.(owned := forum.owned - {tx.pubkey}, joined := forum.joined - {tx.pubkey});
    }

    method Unsend(tx: Tx)
      requires tx.body.TxSend? && tx.pubkey in bal && tx.body.receiver in bal && tx.body.amount <= TOTAL
      requires forall p :: p in bal ==> 0 <= bal[p] <= TOTAL + 2 && 0 <= bal[p] - BodyDelta(tx, RESERVE, p)
      modifies this`bal, this`wrapped
      ensures bal == WithoutBody(old(bal), tx, RESERVE)
      ensures wrapped == old(wrapped)
    {
      hide U64;
      AddBalance(tx.pubkey, tx.body.amount);
      SubBalance(tx.body.receiver, tx.body.amount);
      assert bal == WithoutBody(old(bal), tx, RESERVE);
    }

    method CloseTopic(tx: Tx)
      requires tx.body.TxTopic? && tx.pubkey in bal && tx.body.reward <= TOTAL
      requires forum.queue != [] && ListAt(forum.owned, tx.pubkey) != []
      requires forall p :: p in bal ==> 0 <= bal[p] <= TOTAL + 2
      modifies this`bal, this`forum, this`wrapped
      ensures bal == WithoutBody(old(bal), tx, RESERVE)
      ensures forum == UnTopic(old(forum), tx)
      ensures wrapped == old(wrapped)
    {
      hide U64;
      AddBalance(tx.pubkey, tx.body.reward);
      assert bal == WithoutBody(old(bal), tx, RESERVE);
      forum := forum.(owned := forum.owned[tx.pubkey := DropLast(ListAt(forum.owned, tx.pubkey))]);
      forum := forum.(queue := DropLast(forum.queue));
      forum := forum.(topics := forum.topics - {Hash(tx)});
    }

    method RemoveReply(tx: Tx)
      requires tx.body.TxReply? && ReplyReady(forum, tx)
      modifies this`forum
      ensures forum == UnReply(old(forum), tx, tx.body.topicKey)
    {
      var k := tx.body.topicKey;
      forum := forum.(topics := forum.topics[k := DropReply(forum.topics[k])]);
      var t := forum.topics[k];
      if t.owner != tx.pubkey {
        if t.members[|t.members| - 1].txId == Hash(tx) {
          forum := forum.(joined := forum.joined[tx.pubkey := DropLast(ListAt(forum.joined, tx.pubkey))]);
          forum := forum.(topics := forum.topics[k := t.(members := DropLast(t.members))]);
        }
      }
    }

    method TakeReward(tx: Tx)
      requires tx.body.TxReward? && RewardReady(forum, tx) && PaidTo(forum, tx) in bal
      requires forall p :: p in bal ==> 0 <= bal[p] <= TOTAL + 2 && 0 <= bal[p] - BodyDelta(tx, PaidTo(forum, tx), p)
      modifies this`bal, this`forum, this`wrapped
      ensures bal == WithoutBody(old(bal), tx, PaidTo(old(forum), tx))
      ensures forum == UndoForum(old(forum), tx)
      ensures wrapped == old(wrapped)
    {
      hide U64;
      var k, to := tx.body.topicKey, tx.body.toReply;
      var paid: int := tx.body.paid;
      ghost var t := forum.topics[k];
      var i := GetReply(forum.topics[k], to);
      var owner := forum.topics[k].replies[i].owner;
      assert owner == PaidTo(forum, tx);
      AddTopicBalance(k, paid);
      MoveReplyBalance(k, i, 0 - paid);
      SubBalance(owner, paid);
      assert bal == WithoutBody(old(bal), tx, owner);
      assert forum.topics[k] == PayReply(t, to, 0 - paid);
      forum := forum.(topics := forum.topics[k := DropReply(forum.topics[k])]);
    }

    /** The reverse step of rollback, and of mine_tx's own undo loop. */
    method UndoTransaction(tx: Tx, copy: Copy)
      requires UndoReady(Now(), tx)
      modifies this`reg, this`bal, this`forum, this`txMap, this`wrapped
      ensures Now() == UndoTx(old(Now()), tx, copy != Speculative)
      ensures wrapped == old(wrapped)
    {
      hide ReplyReady, RewardReady, UndoForum, UndoRegistry, UndoMoney, PaidTo, Referrer, FeeDelta, BodyDelta,
           WithoutBody;
      ghost var b := Now();
      txMap := txMap - {Hash(tx)};
      RefundFee(Payer(tx), copy);
      UndoMoneyShape(b, tx);
      UndoBody(tx, copy);
    }

    method UndoBody(tx: Tx, copy: Copy)
      requires UndoBodyReady(bal, reg, forum, tx)
      modifies this`reg, this`bal, this`forum, this`wrapped
      ensures reg == UndoRegistry(old(reg), tx, copy != Speculative)
      ensures forum == UndoForum(old(forum), tx)
      ensures bal == UnbodyBalances(old(bal), tx, PaidTo(old(forum), tx))
      ensures wrapped == old(wrapped)
    {
      UnbodyCases(bal, forum, tx);
      hide ReplyReady, RewardReady, UnReply, UnReward, UnTopic, PaidTo, WithoutBody, FindReply;
      match tx.body {
        case TxReg(_, _, _) => Unregister(tx, copy != Speculative);
        case TxSend(_, _) => Unsend(tx);
        case TxTopic(_) => CloseTopic(tx);
        case TxReply(_, _) => RemoveReply(tx);
        case TxReward(_, _, _) => TakeReward(tx);
      }
    }

    // ---- proc_topic_expired and proc_tx_map

    /** Account::leave_topic: erases the first entry equal to the topic. */
    method LeaveTopic(who: Pubkey, k: Key)
      requires who in forum.joined
      modifies this`forum
      ensures forum == old(forum).(joined := old(forum).joined[who := EraseFirst(old(forum).joined[who], k)])
    {
      var list := forum.joined[who];
      var i := 0;
      while i < |list| && list[i] != k
        invariant i <= |list|
        invariant forall j :: 0 <= j < i ==> list[j] != k
      {
        i := i + 1;
      }
      if i < |list| {
        EraseAt(list, i, k);
        forum := forum.(joined := forum.joined[who := list[..i] + list[i + 1..]]);
      } else {
        EraseNone(list, k);
        assert forum.joined == forum.joined[who := list];
      }
    }

    /** The members of an expiring topic leave it, one after the other. */
    method LeaveMembers(t: Topic, k: Key)
      requires EntryReady(forum.joined, Expired(k, t))
      modifies this`forum
      ensures forum == old(forum).(joined := LeaveAll(old(forum).joined, t, k))
    {
      ghost var f := forum;
      var i := 0;
      NoneLeft(f.joined, t, k);
      while i < |t.members|
        invariant i <= |t.members|
        invariant forum == f.(joined := LeaveSome(f.joined, Whos(t.members, i), k))
      {
        hide EraseFirst, LeaveSome, Whos;
        LeaveStep(f.joined, t, i, k);
        LeaveTopic(t.members[i].who, k);
        i := i + 1;
      }
      AllLeft(f.joined, t, k);
    }

    /** One turn of the expiry loop: false when the topic is not the first of its owner's own list. */
    method ExpireOldest() returns (ok: bool, e: Expired)
      requires forum.queue != [] && forum.queue[0] in forum.topics
      requires EntryReady(forum.joined, Expired(forum.queue[0], forum.topics[forum.queue[0]]))
      requires RESERVE in bal && 0 <= bal[RESERVE] <= TOTAL && 0 <= forum.topics[forum.queue[0]].balance <= TOTAL
      modifies this`forum, this`bal, this`wrapped
      ensures ok <==> OwnerAgrees(old(forum))
      ensures e == Expired(old(forum).queue[0], old(forum).topics[old(forum).queue[0]])
      ensures ok ==> forum == ExpireFront(old(forum)) && bal == AddBal(old(bal), RESERVE, e.topic.balance)
      ensures wrapped == old(wrapped)
    {
      hide U64, LeaveAll, EntryReady;
      var k := forum.queue[0];
      var t := forum.topics[k];
      e := Expired(k, t);
      forum := forum.(topics := forum.topics - {k});
      var own := ListAt(forum.owned, t.owner);
      if own == [] || own[0] != k {
        return false, e;
      }
      if t.balance > 0 {
        AddBalance(RESERVE, t.balance);
      } else {
        AddZero(bal, RESERVE);
      }
      forum := forum.(owned := forum.owned[t.owner := own[1..]]);
      forum := forum.(queue := forum.queue[1..]);
      LeaveMembers(t, k);
      return true, e;
    }

    /** Expiry never fails on funded books. */
    method ProcTopicExpired(h: nat) returns (ok: bool)
      requires Funded(Now(), h)
      modifies this`forum, this`bal, this`undoTopics, this`wrapped
      ensures ok
      ensures Now() == ExpireBooks(old(Now()), h)
      ensures undoTopics == LogTopics(old(undoTopics), old(forum), h)
      ensures wrapped == old(wrapped)
    {
      if h < TOPIC_LIFE_TIME + 2 {
        return true;
      }
      if h > 2 * TOPIC_LIFE_TIME + 1 {
        undoTopics := undoTopics - {h - (2 * TOPIC_LIFE_TIME + 1)};
      }
      undoTopics := undoTopics - {UndoKey(h)};
      var log := ExpireLoop(h);
      undoTopics := undoTopics[UndoKey(h) := log];
      return true;
    }

    method ExpireLoop(h: nat) returns (log: seq<Expired>)
      requires Funded(Now(), h)
      modifies this`forum, this`bal, this`wrapped
      ensures log == ExpiredLog(old(forum), h)
      ensures forum == Expire(old(forum), h)
      ensures bal == AddBal(old(bal), RESERVE, Worth(log))
      ensures wrapped == old(wrapped)
    {
      hide Funded, ExpireFront, Expire, ExpiredLog, Worth, EntryReady;
      ghost var b := Now();
      log := [];
      LoopStart(b, h);
      while forum.queue != []
        invariant Funded(Now(), h) && reg == b.reg && txMap == b.txMap
        invariant Expire(b.forum, h) == Expire(forum, h)
        invariant ExpiredLog(b.forum, h) == ExpiredLog(forum, h) + log
        invariant bal == AddBal(b.bal, RESERVE, Worth(log))
        invariant wrapped == old(wrapped)
        decreases |forum.queue|
      {
        QueuedIsLive(Now(), h);
        if !(forum.topics[forum.queue[0]].born + TOPIC_LIFE_TIME < h) {
          break;
        }
        ghost var c := Now();
        ExpireUnfold(forum, h);
        FundedExpireOne(c, h);
        ExpiryFacts(c, h);
        var ok, e := ExpireOldest();
        LogGrows(ExpiredLog(forum, h), e, log);
        AddTwice(b.bal, RESERVE, Worth(log), e.topic.balance);
        assert Now() == ExpireOneBooks(c);
        Shorter(c.forum);
        log := [e] + log;
      }
      NothingExpires(forum, h);
      assert [] + log == log;
    }

    /** The ids of the block that leaves the window leave the id map; false when one of them is missing. */
    method ProcTxMap(h: nat) returns (ok: bool)
      modifies this`txMap, this`undoTxs
      ensures ok <==> h < TOPIC_LIFE_TIME + 2 || ForgetOk(old(txMap), LeavingIds(byHeight, h))
      ensures ok ==> Now() == ForgetBooks(old(Now()), h, LeavingIds(byHeight, h))
      ensures ok ==> undoTxs == LogTxs(old(undoTxs), LeavingIds(byHeight, h), h)
    {
      hide ForgetOk, LeavingIds;
      if h < TOPIC_LIFE_TIME + 2 {
        return true;
      }
      if h > 2 * TOPIC_LIFE_TIME + 1 {
        undoTxs := undoTxs - {h - (2 * TOPIC_LIFE_TIME + 1)};
      }
      undoTxs := undoTxs - {UndoKey(h)};
      var gone;
      ok, gone := ForgetLoop(LeavingIds(byHeight, h));
      if ok {
        undoTxs := undoTxs[UndoKey(h) := Forgotten(UndoKey(h), gone)];
      }
    }

    method ForgetLoop(ids: seq<Key>) returns (ok: bool, gone: seq<Key>)
      modifies this`txMap
      ensures ok <==> ForgetOk(old(txMap), ids)
      ensures ok ==> gone == Reversed(ids) && txMap == Without(old(txMap), ids)
    {
      ghost var m := txMap;
      gone := [];
      var i := 0;
      assert Without(m, ids[..0]) == m;
      while i < |ids|
        invariant i <= |ids|
        invariant NoDup(ids[..i]) && forall j :: 0 <= j < i ==> ids[j] in m
        invariant txMap == Without(m, ids[..i])
        invariant |gone| == i && forall j :: 0 <= j < i ==> gone[j] == ids[i - 1 - j]
      {
        gone := [ids[i]] + gone;
        if ids[i] !in txMap {
          MissingId(m, ids, i);
          return false, gone;
        }
        assert ids[..i + 1] == ids[..i] + [ids[i]];
        txMap := txMap - {ids[i]};
        assert txMap == Without(m, ids[..i + 1]);
        i := i + 1;
      }
      assert ids[..|ids|] == ids;
      assert gone == Reversed(ids);
      return true, gone;
    }

    // ---- What rollback and mine_tx put back

    method RejoinMembers(t: Topic, k: Key)
      requires EntryReady(forum.joined, Expired(k, t))
      modifies this`forum
      ensures forum == old(forum).(joined := RejoinAll(old(forum).joined, t, k))
    {
      ghost var f := forum;
      var i := 0;
      NoneLeft(f.joined, t, k);
      while i < |t.members|
        invariant i <= |t.members|
        invariant forum == f.(joined := RejoinSome(f.joined, Whos(t.members, i), k))
      {
        hide RejoinSome, Whos;
        LeaveStep(f.joined, t, i, k);
        var who := t.members[i].who;
        forum := forum.(joined := forum.joined[who := [k] + forum.joined[who]]);
        i := i + 1;
      }
      AllLeft(f.joined, t, k);
    }

    method RestoreTopic(e: Expired)
      requires EntryReady(forum.joined, e) && RESERVE in bal && e.topic.balance <= bal[RESERVE] <= TOTAL
      modifies this`forum, this`bal, this`wrapped
      ensures forum == RestoreFront(old(forum), e)
      ensures bal == AddBal(old(bal), RESERVE, 0 - e.topic.balance)
      ensures wrapped == old(wrapped)
    {
      hide U64, RejoinAll, EntryReady;
      if e.key !in forum.topics {
        forum := forum.(topics := forum.topics[e.key := e.topic]);
      }
      forum := forum.(owned := forum.owned[e.topic.owner := [e.key] + ListAt(forum.owned, e.topic.owner)]);
      forum := forum.(queue := [e.key] + forum.queue);
      EntryBalance(forum.joined, e);
      if e.topic.balance > 0 {
        SubBalance(RESERVE, e.topic.balance);
      } else {
        AddZero(bal, RESERVE);
      }
      RejoinMembers(e.topic, e.key);
    }

    method RestoreTopics(log: seq<Expired>)
      requires LogReady(forum.joined, log) && RESERVE in bal && Worth(log) <= bal[RESERVE] <= TOTAL
      modifies this`forum, this`bal, this`wrapped
      ensures forum == Restore(old(forum), log)
      ensures bal == AddBal(old(bal), RESERVE, 0 - Worth(log))
      ensures wrapped == old(wrapped)
    {
      hide LogReady, RestoreFront, Restore, Worth, EntryReady;
      ghost var f, m := forum, bal;
      AddZero(bal, RESERVE);
      var i := 0;
      while i < |log|
        invariant i <= |log|
        invariant LogReady(forum.joined, log[i..])
        invariant Restore(forum, log[i..]) == Restore(f, log)
        invariant bal == AddBal(m, RESERVE, Worth(log[i..]) - Worth(log)) && Worth(log[i..]) <= Worth(log)
        invariant wrapped == old(wrapped)
      {
        RestoreUnfold(forum, log[i..]);
        WorthNonNegative(forum.joined, log[i..]);
        AddTwice(m, RESERVE, Worth(log[i..]) - Worth(log), 0 - log[i].topic.balance);
        assert log[i..][0] == log[i] && log[i..][1..] == log[i + 1..];
        EntryBalance(forum.joined, log[i]);
        RestoreTopic(log[i]);
        i := i + 1;
      }
      RestoreNone(forum);
      assert log[|log|..] == [];
    }

    method RememberIds(gone: Forgotten)
      modifies this`txMap
      ensures txMap == Remember(old(txMap), gone)
    {
      hide Remember;
      ghost var m := txMap;
      var i := 0;
      RememberNone(m, gone.born);
      assert gone.ids[..0] == [];
      while i < |gone.ids|
        invariant i <= |gone.ids|
        invariant txMap == Remember(m, Forgotten(gone.born, gone.ids[..i]))
      {
        RememberOne(m, gone, i);
        if gone.ids[i] !in txMap {
          txMap := txMap[gone.ids[i] := gone.born];
        }
        i := i + 1;
      }
      assert gone.ids[..|gone.ids|] == gone.ids;
    }

    /** The end of rollback's first loop and of mine_tx. */
    method RestoreExpired(h: nat)
      requires h >= TOPIC_LIFE_TIME + 2 ==>
                 var log := LogAt(undoTopics, UndoKey(h));
                 LogReady(forum.joined, log) && RESERVE in bal && Worth(log) <= bal[RESERVE] <= TOTAL
      modifies this`forum, this`bal, this`txMap, this`undoTopics, this`undoTxs, this`wrapped
      ensures S() == Unprepare(old(S()), h)
      ensures wrapped == old(wrapped)
    {
      hide LogReady, Restore, Worth, Remember;
      if h > TOPIC_LIFE_TIME + 1 {
        RestoreTopics(LogAt(undoTopics, UndoKey(h)));
        RememberIds(GoneAt(undoTxs, UndoKey(h)));
        undoTopics := undoTopics - {UndoKey(h)};
        undoTxs := undoTxs - {UndoKey(h)};
      }
    }

    // ---- The transactions of a block

    /** All transactions of a block; false at the first one that fails a check. */
    method ApplyTransactions(txs: seq<Tx>, h: nat, copy: Copy) returns (ok: bool)
      requires Funded(Now(), h) && copy != Speculative
      modifies this`reg, this`bal, this`forum, this`txMap, this`wrapped
      ensures ok <==> TxsOk(old(Now()), txs, h)
      ensures ok ==> Now() == ApplyTxs(old(Now()), txs, h, true)
      ensures wrapped == old(wrapped)
    {
      hide Funded, FormatOk, InWindow, TxOk, ApplyTx, TxsFit, ApplyTxs, Sound, Bounded;
      ghost var b := Now();
      TxsNone(b, h);
      var i := 0;
      assert txs[..0] == [];
      while i < |txs|
        invariant i <= |txs|
        invariant Funded(Now(), h)
        invariant TxsFit(b, txs[..i], h, true) && forall j :: 0 <= j < i ==> InWindow(txs[j], h)
        invariant Now() == ApplyTxs(b, txs[..i], h, true)
        invariant wrapped == old(wrapped)
      {
        ghost var c := Now();
        FundedSound(c, h);
        FundedBounded(c, h);
        TxsStep(b, txs, i, h, true);
        ok := ApplyTransaction(txs[i], h, copy);
        if !ok {
          NotAllOk(b, txs, i, h);
          return false;
        }
        FundedTx(c, txs[i], h, true);
        i := i + 1;
      }
      assert txs[..|txs|] == txs;
      return true;
    }

    // ---- Blocks

    /** The start of every block: expiry and forgetting, neither of which can fail. */
    method PrepareFor(h: nat) returns (ok: bool)
      requires SoundBoundary(S()) && Funded(Now(), Height(cur)) && h == Height(cur) + 1
      modifies this`forum, this`bal, this`txMap, this`undoTopics, this`undoTxs, this`wrapped
      ensures ok
      ensures S() == Prepare(old(S()), h)
      ensures Now() == NextBooks(old(S()))
      ensures wrapped == old(wrapped)
    {
      hide SoundBoundary, Funded, ForgetOk, LeavingIds, PrepareOk, LogTopics, LogTxs, LiveFrom, ExpireBooks,
           ForgetBooks, Prepare, NextBooks;
      ghost var s := S();
      NextStands(s);
      PreparedParts(s, h);
      ok := ProcTopicExpired(h);
      SameIds(Now(), s.books, h);
      ok := ProcTxMap(h);
    }

    /** The miner's fees and reward; the reward is due when the reserve fund had 5000 coins before. */
    method PayBlock(miner: Pubkey, n: nat) returns (paid: bool)
      requires miner in bal && RESERVE in bal && miner != RESERVE && n <= MAX_TXS
      requires 0 <= bal[miner] <= TOTAL && 0 <= bal[RESERVE] <= TOTAL
      modifies this`bal, this`wrapped
      ensures bal == PayMiner(old(bal), miner, n)
      ensures bal == (if old(bal)[RESERVE] >= 5000
                      then old(bal)[miner := old(bal)[miner] + n + 5000][RESERVE := old(bal)[RESERVE] - 5000]
                      else old(bal)[miner := old(bal)[miner] + n])
      ensures paid == Rewards(old(bal)) == (old(bal)[RESERVE] >= 5000)
      ensures wrapped == old(wrapped)
    {
      hide U64, PayMiner;
      PaidBalances(bal, miner, n);
      var remain := bal[RESERVE];
      PayMinerPlain(bal, miner);
      if n > 0 {
        AddBalance(miner, n);
      }
      if remain >= BLOCK_REWARD {
        SubBalance(RESERVE, BLOCK_REWARD);
        AddBalance(miner, BLOCK_REWARD);
        return true;
      }
      return false;
    }

    /** One block on top of the current one, as start, switch_to_most_difficult and mined_new_block apply it,
        whatever the joined lists hold; the header was checked when the block entered the tree. When it returns false
        the node exits. */
    method Connect(b: Block, copy: Copy) returns (ok: bool)
      requires Safe() && b.Block? && b.parent == cur && HeaderOk(b) && copy != Speculative
      modifies this
      ensures ok <==> BlockOk(old(S()), b)
      ensures ok ==> S() == ApplyBlock(old(S()), b) && cur == b && Safe()
      ensures old(Running()) && ok ==> Running()
      ensures old(Valid()) ==> (ok <==> Replay(b).Some?)
      ensures old(Valid()) && ok ==> Valid()
      ensures top == Max(old(top), Height(b))
      ensures wrapped == old(wrapped)
    {
      hide Faithful, Steady, SoundBoundary, Funded, BlockOk, ApplyBlock, Replay, HeaderOk;
      AppliedCur(S(), b);
      if Valid() {
        ApplyFaithful(S(), b, top);
      }
      if Running() && BlockOk(S(), b) {
        SteadyApply(S(), b, top);
      }
      ok := Attach(b, copy);
      top := Max(top, Height(b));
    }

    method Attach(b: Block, copy: Copy) returns (ok: bool)
      requires b.Block? && b.parent == cur && HeaderOk(b) && copy != Speculative
      requires SoundBoundary(S()) && Funded(Now(), Height(cur))
      modifies this`reg, this`bal, this`forum, this`txMap, this`undoTopics, this`undoTxs, this`cur, this`byHeight,
               this`inMain, this`rewarded, this`wrapped
      ensures ok <==> BlockOk(old(S()), b)
      ensures ok ==> S() == ApplyBlock(old(S()), b)
      ensures ok ==> SoundBoundary(S()) && Funded(Now(), Height(cur))
      ensures wrapped == old(wrapped)
    {
      hide SoundBoundary, Funded, BlockOk, TxsOk, ApplyBlock, NextBooks, BlockBooks, BlockRewarded, LiveFrom, ForgetOk,
           LeavingIds, Prepare, PrepareOk, HeaderOk;
      ghost var s := S();
      BlockOkShape(s, b);
      if |b.txs| > MAX_TXS || b.miner !in reg.accounts {
        return false;
      }
      var h := Height(b);
      ok := PrepareFor(h);
      ghost var q := S();
      var paid;
      ok, paid := FillBlock(b, h, copy);
      if !ok {
        return false;
      }
      rewarded := rewarded[b := paid];
      byHeight := byHeight[h := b];
      inMain := inMain + {b};
      cur := b;
      AttachedParts(s, b, q, S());
      ApplySound(s, b);
      FundedStep(s, b);
    }

    /** The transactions of a block, then its miner. */
    method FillBlock(b: Block, h: nat, copy: Copy) returns (ok: bool, paid: bool)
      requires b.Block? && h == Height(b) && copy != Speculative
      requires Funded(Now(), h) && LiveFrom(forum, Oldest(h)) && b.miner in reg.accounts && |b.txs| <= MAX_TXS
      modifies this`reg, this`bal, this`forum, this`txMap, this`wrapped
      ensures ok <==> TxsOk(old(Now()), b.txs, h)
      ensures ok ==> Now() == BlockBooks(old(Now()), b) && paid == BlockRewarded(old(Now()), b)
      ensures wrapped == old(wrapped)
    {
      hide Funded, TxsFit, InTime, ApplyTxs, PayMiner, Rewards, LiveFrom;
      ghost var p := Now();
      ok := ApplyTransactions(b.txs, h, copy);
      if !ok {
        return false, false;
      }
      PayerStands(p, b, h);
      paid := PayBlock(b.miner, |b.txs|);
    }

    // ---- Taking blocks off

    /** The miner's reward and fees taken back. */
    method UnpayBlock(miner: Pubkey, n: nat, paid: bool, ghost before: Balances)
      requires miner in before && RESERVE in before && miner != RESERVE && n <= MAX_TXS
      requires 0 <= before[miner] <= TOTAL && 0 <= before[RESERVE] <= TOTAL
      requires bal == PayMiner(before, miner, n) && paid == Rewards(before)
      modifies this`bal, this`wrapped
      ensures bal == before
      ensures wrapped == old(wrapped)
    {
      hide U64;
      if paid {
        AddBalance(RESERVE, BLOCK_REWARD);
        SubBalance(miner, BLOCK_REWARD);
      }
      if n > 0 {
        SubBalance(miner, n);
      }
      assert bal == before;
    }

    /** The reverse loop over the transactions of a block, or over those mine_tx selected, whatever joined lists and
        members are, where each of its turns is defined; `p` are the books, without joined lists and members, that the
        first of them was applied to. */
    method UndoTransactions(txs: seq<Tx>, copy: Copy, ghost p: Books, ghost h: nat)
      requires Strip(p) == p && Funded(p, h) && BareFit(p, txs, h, copy != Speculative)
      requires Strip(Now()) == BareTxs(p, txs, h, copy != Speculative) && LoopDefined(forum, txs)
      modifies this`reg, this`bal, this`forum, this`txMap, this`wrapped
      ensures Now() == UndoTxs(old(Now()), txs, copy != Speculative)
      ensures Strip(Now()) == p
      ensures wrapped == old(wrapped)
    {
      hide Funded, Strip, UndoTx, UndoTxs, BareFit, BareTxs, LoopDefined, UndoReady;
      ghost var index := copy != Speculative;
      ghost var x := Now();
      var i := |txs|;
      assert txs[..i] == txs;
      while i > 0
        invariant i <= |txs|
        invariant Strip(Now()) == BareTxs(p, txs[..i], h, index) && LoopDefined(forum, txs[..i])
        invariant UndoTxs(Now(), txs[..i], index) == UndoTxs(x, txs, index)
        invariant wrapped == old(wrapped)
      {
        UndoTurn(Now(), p, txs, i, h, index);
        i := i - 1;
        UndoTransaction(txs[i], copy);
      }
      assert txs[..0] == [];
      NothingToUndo(Now(), p, h, index);
    }

    /** One turn of rollback's first loop, for a block whose undo entry is retained and whose replies can be taken off,
        whatever joined lists and members are: the joined lists come back too if and only if the last elements of each
        are what the block's first replies joined. */
    method UndoCurrent()
      requires Running() && cur.Block? && Retains(S(), Height(cur.parent)) && LoopDefined(forum, cur.txs)
      modifies this
      ensures S() == UndoBlock(old(S()))
      ensures Running() && cur == old(cur).parent && top == old(top)
      ensures old(Tracking()) ==> Tracking()
      ensures old(Valid()) ==> IsAncestor(cur, old(cur)) && (Valid() <==> old(JoinedBack(S(), cur.parent)))
      ensures wrapped == old(wrapped)
    {
      hide Faithful, Tracks, Steady, UndoBlock, CanUndo, Undoable, JoinedBack, Retains, LoopDefined;
      SteadyReach(S(), top, cur.parent);
      SteadyUndo(S(), top);
      if Tracking() {
        UndoTracks(S(), top);
      }
      if Valid() {
        UndoFaithfulIff(S(), top);
      }
      ghost var r := UndoTarget(S(), top);
      Detach(r);
    }

    /** The current block is taken off; `r` is what a replay rebuilds, without joined lists and members, for its
        parent. */
    method Detach(ghost r: State)
      requires Undoable(S(), r) && LoopDefined(forum, cur.txs)
      modifies this`reg, this`bal, this`forum, this`txMap, this`undoTopics, this`undoTxs, this`cur, this`byHeight,
               this`inMain, this`wrapped
      ensures S() == UndoBlock(old(S()))
      ensures wrapped == old(wrapped)
    {
      hide Undoable, Funded, Strip, NextBooks, BareBlockBooks, BareRewarded, LogAt, UndoBlock, UndoTxs, UnblockBooks,
           Unprepare, LogReady, Worth, BareFit, LiveFrom, LoopDefined, Height;
      ghost var s := S();
      UndoableBlock(s, r);
      UndoneParts(s);
      var b, h := cur, Height(cur);
      EmptyBlock(b, rewarded[b], NextBooks(r), h);
      UndoableLog(s, r, Now());
      RestoreExpired(h);
      inMain := inMain - {b};
      byHeight := byHeight - {h};
      cur := b.parent;
    }

    /** The miner's pay and the transactions of block `b` are taken back; `p` are the books, without joined lists and
        members, it started from. */
    method EmptyBlock(b: Block, paid: bool, ghost p: Books, ghost h: nat)
      requires b.Block? && h == Height(b) && Strip(p) == p && Funded(p, h) && LiveFrom(p.forum, Oldest(h))
      requires BareFit(p, b.txs, h, true) && b.miner in p.reg.accounts && |b.txs| <= MAX_TXS
      requires Strip(Now()) == BareBlockBooks(p, b) && paid == BareRewarded(p, b) && LoopDefined(forum, b.txs)
      modifies this`reg, this`bal, this`forum, this`txMap, this`wrapped
      ensures Now() == UnblockBooks(old(Now()), b, paid)
      ensures Strip(Now()) == p
      ensures wrapped == old(wrapped)
    {
      hide Funded, Strip, LiveFrom, BareFit, BareTxs, UndoTxs, BareBlockBooks, BareRewarded, Rewards, PayMiner,
           UnpayMiner, LoopDefined;
      UnpayStands(Now(), p, b, h);
      UnpayBlock(b.miner, |b.txs|, paid, BareTxs(p, b.txs, h, true).bal);
      UndoTransactions(b.txs, Replaying, p, h);
    }

    /** rollback, for targets that its first loop reaches, whatever joined lists and members are, where each of its
        steps is defined; on a ledger that tracks its replay it always is. */
    method RollbackTo(target: nat)
      requires Running() && target <= Height(cur) && Retains(S(), target) && RollbackDefined(S(), target)
      modifies this
      ensures S() == Rollback(old(S()), target)
      ensures Running() && cur == AncestorAt(old(cur), target) && top == old(top)
      ensures old(Tracking()) ==> Tracking()
      ensures old(Valid()) ==> (Valid() <==> old(JoinedBack(S(), AncestorAt(cur, target))))
      ensures wrapped == old(wrapped)
    {
      hide Faithful, Tracks, Steady, UndoBlock, Rollback, JoinedBack, Retains, RollbackDefined, LoopDefined;
      ghost var s, f := S(), AncestorAt(cur, target);
      SteadyReach(S(), top, f);
      if Valid() {
        RollbackFaithfulIff(S(), f, top);
      }
      UndoAhead(S(), f, top);
      while Height(cur) > target && (Height(cur) <= TOPIC_LIFE_TIME + 1 || UndoKey(Height(cur)) in undoTopics)
        invariant Running() && IsAncestor(f, cur) && Height(f) == target && target <= Height(cur)
        invariant old(Tracking()) ==> Tracking()
        invariant InReach(target, top) && RollbackDefined(S(), target)
        invariant Rollback(S(), target) == Rollback(s, target)
        invariant Height(cur) > target ==> CanUndo(S())
        invariant top == old(top) && wrapped == old(wrapped)
        decreases Height(cur)
      {
        UndoAhead(S(), f, top);
        UndoStep(S(), target);
        SteadyRetains(S(), top, Height(cur.parent));
        UndoCurrent();
        UndoAhead(S(), f, top);
      }
      UndoEnd(S(), f);
    }

    // ---- Whole branches

    /** Connects a path of blocks, lowest first, whatever the joined lists hold. */
    method ConnectAll(path: seq<Block>, target: Block, copy: Copy) returns (ok: bool)
      requires Safe() && copy != Speculative && HeadersOk(target)
      requires IsAncestor(cur, target) && path == PathFrom(cur, target)
      modifies this
      ensures ok <==> ApplyBlocks(old(S()), path).Some?
      ensures ok ==> Safe() && cur == target && Some(S()) == ApplyBlocks(old(S()), path)
      ensures old(Running()) && ok ==> Running()
      ensures old(Valid()) ==> (ok <==> Replay(target).Some?)
      ensures old(Valid()) && ok ==> Valid()
      ensures wrapped == old(wrapped)
    {
      hide Faithful, Steady, SoundBoundary, Funded, BlockOk, ApplyBlock, ApplyBlocks, Replay, HeaderOk;
      ghost var s := S();
      if Valid() {
        ApplyBlocksFaithful(S(), target, top);
      }
      var i := 0;
      assert path[..0] == [];
      NoBlocks(s);
      while i < |path|
        invariant i <= |path|
        invariant Safe() && cur == (if i == 0 then s.cur else path[i - 1])
        invariant ApplyBlocks(s, path[..i]) == Some(S())
        invariant old(Running()) ==> Running()
        invariant old(Valid()) ==> Valid()
        invariant wrapped == old(wrapped)
      {
        PathBlock(s.cur, target, i);
        BlocksStep(s, path, i);
        ok := Connect(path[i], copy);
        if !ok {
          BlocksFail(s, path, i + 1);
          return false;
        }
        i := i + 1;
      }
      assert path[..|path|] == path;
      PathEnd(s.cur, target);
      return true;
    }

    /** start, phase 2: the branch of the heaviest block is walked down to genesis and replayed upwards. */
    method Start(target: Block) returns (ok: bool)
      requires Valid() && S() == INITIAL && HeadersOk(target)
      modifies this
      ensures ok <==> Replay(target).Some?
      ensures ok ==> Valid() && S() == Replay(target).value
      ensures wrapped == old(wrapped)
    {
      hide Faithful, Steady, SoundBoundary, Funded, ApplyBlocks, Replay, HeadersOk;
      Weaker();
      InitialCur();
      var path := WalkToGenesis(target);
      ReplayIsApplyBlocks(target);
      ok := ConnectAll(path, target, Replaying);
    }

    method WalkToGenesis(target: Block) returns (path: seq<Block>)
      ensures IsAncestor(Genesis, target) && path == PathFrom(Genesis, target)
    {
      GenesisIsRoot(target);
      path := [];
      var block := target;
      while block != Genesis
        invariant IsAncestor(block, target) && IsAncestor(Genesis, block) && path == PathFrom(block, target)
        decreases block
      {
        WalkDown(block, target);
        path := [block] + path;
        block := block.parent;
      }
    }

    /** The heaviest block becomes the current one; false when its branch does not check and the node exits. Whatever
        earlier switches did to joined lists and members, the ledger is that of the branch in all else; on a faithful
        ledger it is the one start would rebuild, and the branch checks exactly when start accepts it, if rolling back
        brings the joined lists back. */
    method SwitchToMostDifficult(target: Block) returns (ok: bool, ghost fork: Block)
      requires Running() && HeadersOk(target)
      requires forall f :: IsFork(f, cur, target) ==> Retains(S(), Height(f)) && RollbackDefined(S(), Height(f))
      modifies this
      ensures IsFork(fork, old(cur), target)
      ensures ok <==> Switched(old(S()), fork, PathFrom(fork, target)).Some?
      ensures ok ==> Running() && cur == target && Some(S()) == Switched(old(S()), fork, PathFrom(fork, target))
      ensures old(Valid() && JoinedBack(S(), fork)) ==> (ok <==> Replay(target).Some?)
      ensures old(Valid() && JoinedBack(S(), fork)) && ok ==> Valid()
      ensures wrapped == old(wrapped)
    {
      hide Faithful, Tracks, Steady, SoundBoundary, Funded, ApplyBlocks, Replay, HeadersOk, Rollback, JoinedBack,
           Retains, RollbackDefined;
      var cross, path := FindFork(cur, target);
      fork := cross;
      AncestorHeight(cross, cur);
      RollbackHere(S(), top);
      if Height(cross) < Height(cur) {
        RollbackTo(Height(cross));
      }
      Weaker();
      ok := ConnectAll(path, target, Replaying);
    }

    // ---- mined_new_block

    /** A block that a peer or the miner found on top of the current one, whatever the joined lists hold. */
    method MinedNewBlock(b: Block) returns (ok: bool)
      requires Safe() && b.Block?
      modifies this
      ensures ok <==> BlockOk(old(S()), b)
      ensures ok ==> S() == ApplyBlock(old(S()), b) && cur == b && Safe()
      ensures old(Running()) && ok ==> Running()
      ensures old(Valid()) && ok ==> Valid()
      ensures ok && UtcDiff(old(cur)) < 10 ==> b.zeroBits == ZeroBits(old(cur)) + 1
      ensures ok && 10 <= UtcDiff(old(cur)) <= 30 ==> b.zeroBits == ZeroBits(old(cur))
      ensures ok && UtcDiff(old(cur)) > 30 ==>
                b.zeroBits == if ZeroBits(old(cur)) > 1 then ZeroBits(old(cur)) - 1 else 1
      ensures ok ==> top == Max(old(top), Height(b))
      ensures wrapped == old(wrapped)
    {
      hide Faithful, Steady, SoundBoundary, Funded, ApplyBlock, Replay, TxsOk, PrepareOk, PrepareBooks;
      if b.zeroBits == 0 || b.zeroBits >= 256 {
        return false;
      }
      if b.parent != cur {
        return false;
      }
      var parentBits, diff := ZeroBits(cur), UtcDiff(cur);
      if diff < 10 {
        if b.zeroBits != parentBits + 1 {
          return false;
        }
      } else if diff > 30 {
        if parentBits > 1 {
          if b.zeroBits != parentBits - 1 {
            return false;
          }
        } else if b.zeroBits != 1 {
          return false;
        }
      } else if b.zeroBits != parentBits {
        return false;
      }
      if b.utc < Utc(cur) {
        return false;
      }
      ok := Connect(b, Mined);
    }

    // ---- mine_tx

    /** The rotating loop: a transaction that fails goes to the back of the list. */
    method RotateList(pool: seq<Tx>, h: nat, ghost p: Books) returns (mined: seq<Tx>, uv: seq<Tx>)
      requires Chosen(Now(), p, [], h) && Parts(pool, pool, []) && forall tx :: tx in pool ==> FormatOk(tx)
      modifies this`reg, this`bal, this`forum, this`txMap, this`wrapped, this`tries
      ensures mined == Selected(p, pool, h) && |mined| <= MAX_TXS
      ensures Chosen(Now(), p, mined, h) && Parts(pool, uv, mined)
      ensures tries <= old(tries) + 3 * |pool|
      ensures wrapped == old(wrapped)
    {
      hide FormatOk, TxOk, ApplyTxs, Chosen, Parts, Selected, InPass;
      PassStarts(p, pool, h);
      ghost var m0, u0 := [], pool;
      uv := pool;
      mined := [];
      var cnt, remain, total, last := 0, |pool|, |pool|, 0;
      var loopCnt := 0;
      while uv != []
        invariant Chosen(Now(), p, mined, h)
        invariant Parts(pool, uv, mined) && |uv| + |mined| == total == |pool|
        invariant 0 <= last <= |mined| < MAX_TXS && remain == total - last && 0 <= cnt <= remain && loopCnt < 3
        invariant |m0| == last && InPass(p, pool, m0, u0, mined, uv, remain - cnt, h, 3 - loopCnt)
        invariant FewTries(tries - old(tries), loopCnt, total, cnt)
        invariant wrapped == old(wrapped)
        decreases 3 - loopCnt, remain - cnt
      {
        cnt := cnt + 1;
        if cnt > remain {
          if loopCnt == 2 || |mined| == last {
            PassStops(p, pool, m0, u0, mined, uv, 0, h, 3 - loopCnt);
          } else {
            PassFollows(p, pool, m0, u0, mined, uv, h, 3 - loopCnt);
          }
          loopCnt := loopCnt + 1;
          if loopCnt >= 3 {
            break;
          }
          cnt := 1;
          if |mined| == last {
            break;
          }
          last := |mined|;
          remain := total - |mined|;
          m0, u0 := mined, uv;
        }
        var tx := uv[0];
        PoolSplit(pool, uv, mined);
        ChosenMeans(Now(), p, mined, h);
        PassTurns(p, pool, m0, u0, mined, uv, remain - cnt + 1, h, 3 - loopCnt);
        var done := TryTransaction(tx, h, p, mined);
        if !done {
          uv := uv[1..] + [tx];
        } else {
          mined := mined + [tx];
          uv := uv[1..];
          if |mined| >= MAX_TXS {
            PassStops(p, pool, m0, u0, mined, uv, remain - cnt, h, 3 - loopCnt);
            break;
          }
        }
      }
      if mined != Selected(p, pool, h) {
        PassStops(p, pool, m0, u0, mined, uv, remain - cnt, h, 3 - loopCnt);
      }
    }

    /** It selects what at most three passes over the pool select, each in the order of the pool; of those left out
        of a selection of fewer than 2000 each was tried and did not fit, and one that fits at the end did not fit in
        any of three passes. */
    method SelectTransactions(pool: seq<Tx>, h: nat) returns (mined: seq<Tx>)
      requires Funded(Now(), h) && forall tx :: tx in pool ==> FormatOk(tx)
      modifies this`reg, this`bal, this`forum, this`txMap, this`wrapped, this`tries
      ensures mined == Selected(old(Now()), pool, h)
      ensures |mined| <= MAX_TXS && multiset(mined) <= multiset(pool)
      ensures TxsFit(old(Now()), mined, h, false) && Now() == ApplyTxs(old(Now()), mined, h, false)
      ensures |mined| < MAX_TXS ==> forall tx :: tx in pool && tx !in mined ==> PassedOver(old(Now()), mined, tx, h)
      ensures tries <= old(tries) + 3 * |pool|
      ensures wrapped == old(wrapped)
    {
      hide Funded, FormatOk, TxsFit, ApplyTxs, Chosen, Parts, Selected, PassedOver;
      ghost var p := Now();
      NoneSelected(p, pool, h);
      var uv;
      mined, uv := RotateList(pool, h, p);
      AllLeftOut(p, pool, h);
      PartsMean(pool, uv, mined);
      ChosenMeans(Now(), p, mined, h);
    }

    /** One pool transaction: applied on top of those selected so far, or left out without a trace. */
    method TryTransaction(tx: Tx, h: nat, ghost p: Books, ghost mined: seq<Tx>) returns (ok: bool)
      requires Chosen(Now(), p, mined, h) && FormatOk(tx)
      modifies this`reg, this`bal, this`forum, this`txMap, this`wrapped, this`tries
      ensures ok <==> TxOk(old(Now()), tx)
      ensures !ok ==> Now() == old(Now())
      ensures Chosen(Now(), p, if ok then mined + [tx] else mined, h)
      ensures tries == old(tries) + 1
      ensures wrapped == old(wrapped)
    {
      hide Funded, FormatOk, TxOk, TxsFit, ApplyTx, ApplyTxs, Sound, Bounded;
      FundedSound(Now(), h);
      FundedBounded(Now(), h);
      tries := tries + 1;
      ok := ApplyTransaction(tx, h, Speculative);
      if ok {
        TxsAppend(p, mined, tx, h, false);
        FundedTx(old(Now()), tx, h, false);
      }
    }

    /** mine_tx: expires and forgets as the next block would, selects a body for it, and takes everything back,
        whether or not the pool was checked for the block-id window; the body is valid exactly when all of it is
        inside. Only what it selects must not put it into a reverse step that is undefined, which no selection does
        where joined lists name live topics with members. */
    method MineTx(pool: seq<Tx>) returns (mined: seq<Tx>)
      requires Running() && forall tx :: tx in pool ==> FormatOk(tx)
      requires TrialDefined(NextBooks(S()), Height(cur) + 1, pool)
      modifies this
      ensures S() == Tried(old(S()), mined)
      ensures Running() && cur == old(cur) && top == Max(old(top), Height(cur) + 1)
      ensures old(Valid()) ==> Valid() && S() == Speculated(old(S()))
      ensures mined == Selected(NextBooks(old(S())), pool, Height(cur) + 1)
      ensures |mined| <= MAX_TXS && multiset(mined) <= multiset(pool) && NoDup(mined)
      ensures |mined| < MAX_TXS ==>
                forall tx :: tx in pool && tx !in mined ==> PassedOver(NextBooks(old(S())), mined, tx, Height(cur) + 1)
      ensures tries <= old(tries) + 3 * |pool|
      ensures forall b: Block :: NextWith(old(S()), b, mined) ==> (BlockOk(old(S()), b) <==> InTime(mined, Height(b)))
      ensures old(Valid()) ==>
                forall b: Block :: NextWith(old(S()), b, mined) ==> (BlockOk(S(), b) <==> InTime(mined, Height(b)))
      ensures wrapped == old(wrapped)
    {
      hide Faithful, Tracks, Steady, SoundBoundary, Linked, Funded, FormatOk, InTime, TxsFit, ApplyTxs, Replay,
           Speculated, Tried, BlockOk, NextBooks, TrialDefined, NextWith, Selected, PassedOver;
      ghost var s, wide := S(), top;
      Weaker();
      var h := Height(cur) + 1;
      mined := TryTransactions(pool, h);
      SteadyTried(s, mined, wide);
      top := Max(top, h);
      forall b: Block | NextWith(s, b, mined)
        ensures BlockOk(s, b) <==> InTime(mined, Height(b))
      {
        BodyParts(s, b, mined);
        SelectedBlockOk(s, b);
      }
      if old(Valid()) {
        FaithfulBoundary(s, wide);
        TriedIsSpeculated(s, mined);
        SpeculateFaithful(s, wide);
        forall b: Block | NextWith(s, b, mined)
          ensures BlockOk(S(), b) <==> InTime(mined, Height(b))
        {
          BodyParts(s, b, mined);
          SameAccepted(s, S(), b, wide, top);
        }
      }
    }

    method TryTransactions(pool: seq<Tx>, h: nat) returns (mined: seq<Tx>)
      requires SoundBoundary(S()) && Funded(Now(), Height(cur)) && h == Height(cur) + 1
      requires forall tx :: tx in pool ==> FormatOk(tx)
      requires TrialDefined(NextBooks(S()), h, pool)
      modifies this`reg, this`bal, this`forum, this`txMap, this`undoTopics, this`undoTxs, this`wrapped, this`tries
      ensures S() == Tried(old(S()), mined)
      ensures mined == Selected(NextBooks(old(S())), pool, h)
      ensures |mined| < MAX_TXS ==>
                forall tx :: tx in pool && tx !in mined ==> PassedOver(NextBooks(old(S())), mined, tx, h)
      ensures tries <= old(tries) + 3 * |pool|
      ensures |mined| <= MAX_TXS && multiset(mined) <= multiset(pool) && NoDup(mined)
      ensures TxsFit(NextBooks(old(S())), mined, h, false)
      ensures wrapped == old(wrapped)
    {
      hide SoundBoundary, Funded, FormatOk, TxsFit, ApplyTxs, NextBooks, Prepare, Unprepare, UndoTxs, BareFit, BareTxs,
           LogReady, Worth, LogAt, Sound, Strip, LoopDefined, Tried, Selected, PassedOver;
      ghost var s := S();
      NextStands(s);
      var ok := PrepareFor(h);
      ghost var p := Now();
      mined := SelectTransactions(pool, h);
      SelectedOnce(p, mined, h, false);
      TrialStands(p, mined, h);
      UndoTransactions(mined, Speculative, Strip(p), h);
      TriedLog(s, h, Now());
      TriedIs(s, mined, h);
      RestoreExpired(h);
    }

    // ---- check_balance

    method CountAccounts() returns (coins: int)
      requires forall i :: i in reg.byId ==> reg.byId[i] in bal
      ensures coins == MapSum(CoinsById(reg.byId, bal)) % TWO64
    {
      hide MapSum;
      coins := 0;
      var rest := reg.byId;
      ghost var sum := 0;
      while rest != map[]
        invariant forall i :: i in rest ==> i in reg.byId && rest[i] == reg.byId[i]
        invariant coins == sum % TWO64 && sum + MapSum(CoinsById(rest, bal)) == MapSum(CoinsById(reg.byId, bal))
        decreases |rest|
      {
        var i :| i in rest;
        CoinsLess(rest, bal, i);
        AddModulo(sum, bal[rest[i]]);
        sum := sum + bal[rest[i]];
        coins := U64(coins + bal[rest[i]]);
        rest := rest - {i};
      }
      NoCoins(bal);
    }

    method CountTopics(from: int) returns (coins: int)
      requires forall k :: k in forum.queue ==> k in forum.topics
      ensures coins == if forum.queue == [] then from else (from + SumTopics(forum.queue, forum.topics)) % TWO64
    {
      coins := from;
      ghost var sum := from;
      var j := 0;
      while j < |forum.queue|
        invariant j <= |forum.queue|
        invariant coins == if j == 0 then from else sum % TWO64
        invariant sum + SumTopics(forum.queue[j..], forum.topics) == from + SumTopics(forum.queue, forum.topics)
      {
        AddModulo(sum, forum.topics[forum.queue[j]].balance);
        sum := sum + forum.topics[forum.queue[j]].balance;
        coins := U64(coins + forum.topics[forum.queue[j]].balance);
        j := j + 1;
      }
    }

    /** Adds up, modulo 2^64, the accounts by id and the topics of the queue. */
    method CheckBalance() returns (ok: bool)
      requires forall i :: i in reg.byId ==> reg.byId[i] in bal
      requires forall k :: k in forum.queue ==> k in forum.topics
      ensures ok <==> (MapSum(CoinsById(reg.byId, bal)) + SumTopics(forum.queue, forum.topics)) % TWO64 == TOTAL
    {
      hide MapSum;
      var coins := CountAccounts();
      coins := CountTopics(coins);
      ghost var a, q := MapSum(CoinsById(reg.byId, bal)), SumTopics(forum.queue, forum.topics);
      assert (a % TWO64 + q) % TWO64 == (a + q) % TWO64;
      return coins == TOTAL;
    }
  }

  function WithReplyBalance(t: Topic, i: nat, v: int): Topic
    requires i < |t.replies|
  {
    t.(replies := t.replies[i := t.replies[i].(balance := v)])
  }

  lemma ChargedFee(reg: Registry, m: Balances, payer: Pubkey)
    requires payer in m && Referrer(reg, payer) in m
    ensures forall r :: Invited(reg, payer, r) ==> r in m && WithFee(m, payer, Referrer(reg, payer)) == Fee(m, payer, r)
  {
  }

  lemma PaidTopic(t: Topic, to: Key, v: int)
    ensures var i := FindReply(t.replies, to);
            i < |t.replies| ==>
              PayReply(t, to, v) == WithReplyBalance(t.(balance := t.balance - v), i, t.replies[i].balance + v)
  {
  }

  /** A reply cannot answer itself, so appending it first changes no lookup of the reply it answers. */
  lemma AppendedReply(t: Topic, r: Reply, key: Key)
    requires r.key != key
    ensures NormalReplyAt(AddReply(t, r), key) == NormalReplyAt(t, key)
  {
    var u := AddReply(t, r);
    var i, j := FindReply(t.replies, key), FindReply(u.replies, key);
    assert i < |t.replies| ==> u.replies[i].key == key;
    assert j < |t.replies| ==> t.replies[j].key == u.replies[j].key;
  }

  lemma SameMembers(t: Topic, r: Reply, txId: Key, who: Pubkey)
    ensures AddMember(AddReply(t, r), txId, who) == AddReply(AddMember(t, txId, who), r)
  {
  }

  lemma AccountFacts(b: Books, h: nat, p: Pubkey)
    requires Sound(b, h) && p in b.reg.accounts
    ensures p in b.bal && Referrer(b.reg, p) in b.bal
    ensures b.reg.accounts[p].referrer.None? ==> b.reg.accounts[p].id <= 1
  {
    assert AccountOk(b, p);
  }

  lemma PayerFacts(b: Books, tx: Tx, h: nat)
    requires Sound(b, h) && FeeOk(b, tx)
    ensures Payer(tx) in b.reg.accounts && Payer(tx) in b.bal && Referrer(b.reg, Payer(tx)) in b.bal
    ensures b.bal[Payer(tx)] >= 2
    ensures !tx.body.TxReg? ==> Payer(tx) == tx.pubkey
  {
    AccountFacts(b, h, Payer(tx));
  }

  lemma AfterFee(b: Books, h: nat, payer: Pubkey)
    requires Sound(b, h) && Bounded(b) && payer in b.reg.accounts && payer in b.bal && b.bal[payer] >= 2
    ensures var m := WithFee(b.bal, payer, Referrer(b.reg, payer));
            && (forall p :: p in m ==> 0 <= m[p] <= TOTAL + 1)
            && (forall p :: p in b.reg.accounts ==> p in m)
            && (forall p :: p in b.bal ==> p in m)
  {
    forall p | p in b.reg.accounts ensures p in b.bal {
      assert AccountOk(b, p);
    }
  }

  /** The checks after the fee, on the balances `m` it leaves. */
  predicate BodyOk(m: Balances, reg: Registry, f: Forum, tx: Tx) {
    && (!tx.body.TxReg? ==> tx.pubkey in m && m[tx.pubkey] >= Spent(tx))
    && (tx.body.TxSend? ==> tx.body.receiver in reg.accounts)
    && ForumOk(f, tx)
  }

  function BodyBalances(m: Balances, tx: Tx, paidTo: Pubkey): Balances {
    var body := WithBody(m, tx, paidTo);
    if tx.body.TxReg? then body[tx.pubkey := 0] else body
  }

  lemma BodyAsTx(b: Books, tx: Tx)
    requires Bounded(b)
    ensures FeeOk(b, tx) ==>
              (TxOk(b, tx) <==> BodyOk(WithFee(b.bal, Payer(tx), Referrer(b.reg, Payer(tx))), b.reg, b.forum, tx))
    ensures TxOk(b, tx) ==> FeeOk(b, tx)
    ensures ApplyMoney(b, tx) ==
              BodyBalances(WithFee(b.bal, Payer(tx), Referrer(b.reg, Payer(tx))), tx, PaidTo(b.forum, tx))
  {
    hide ForumOk, BoundedForum, ApplyMoney, PaidTo, Referrer, BodyDelta;
    MoneyShape(b, tx);
  }

  lemma NeedsFee(b: Books, tx: Tx)
    ensures TxOk(b, tx) ==> FeeOk(b, tx)
  {
  }

  /** What the general definitions come to for each type. */
  lemma BodyCases(m: Balances, reg: Registry, f: Forum, tx: Tx, h: nat, index: bool)
    requires !tx.body.TxReg? ==> tx.pubkey in m
    requires forall p :: p in m ==> 0 <= m[p]
    ensures tx.body.TxReg? ==> BodyOk(m, reg, f, tx) && BodyBalances(m, tx, PaidTo(f, tx)) == m[tx.pubkey := 0]
    ensures !tx.body.TxReg? ==> ApplyRegistry(reg, tx, h, index) == reg
    ensures tx.body.TxSend? ==> ApplyForum(f, tx, h) == f
    ensures tx.body.TxSend? ==>
              (BodyOk(m, reg, f, tx) <==> m[tx.pubkey] >= tx.body.amount && tx.body.receiver in reg.accounts)
    ensures tx.body.TxTopic? ==> (BodyOk(m, reg, f, tx) <==> m[tx.pubkey] >= tx.body.reward && ForumOk(f, tx))
    ensures tx.body.TxReply? || tx.body.TxReward? ==> (BodyOk(m, reg, f, tx) <==> ForumOk(f, tx))
    ensures tx.body.TxSend? || tx.body.TxTopic? ==> PaidTo(f, tx) == RESERVE
    ensures tx.body.TxReply? ==> BodyBalances(m, tx, PaidTo(f, tx)) == m
    ensures !tx.body.TxReg? ==> BodyBalances(m, tx, PaidTo(f, tx)) == WithBody(m, tx, PaidTo(f, tx))
  {
    hide NormalReplyAt, ReplyOwner, Joins;
  }

  lemma PayeeKnown(b: Books, tx: Tx, h: nat)
    requires Sound(b, h)
    ensures tx.body.TxReward? && ForumOk(b.forum, tx) ==> PaidTo(b.forum, tx) in b.bal
  {
    if tx.body.TxReward? && ForumOk(b.forum, tx) {
      PayeeHasBalance(b, tx, h);
    }
  }

  // ---- Facts used inside the loops

  lemma ExpiryFacts(b: Books, h: nat)
    requires Funded(b, h) && b.forum.queue != [] && b.forum.queue[0] in b.forum.topics
    ensures var k := b.forum.queue[0];
            var t := b.forum.topics[k];
            && OwnerAgrees(b.forum)
            && EntryReady(b.forum.joined, Expired(k, t))
            && RESERVE in b.bal && 0 <= b.bal[RESERVE] <= TOTAL && 0 <= t.balance <= TOTAL
  {
    FundedBounded(b, h);
    FrontFacts(b, h);
    FrontReady(b, h);
    hide Total, TopicsOk, QueueOk, EntryReady, TopicFunds;
  }

  lemma LoopStart(b: Books, h: nat)
    requires Funded(b, h)
    ensures Worth([]) == 0 && AddBal(b.bal, RESERVE, 0) == b.bal
    ensures ExpiredLog(b.forum, h) + [] == ExpiredLog(b.forum, h)
  {
    HasReserve(b, h);
    AddZero(b.bal, RESERVE);
  }

  lemma QueuedIsLive(b: Books, h: nat)
    requires Funded(b, h) && b.forum.queue != []
    ensures b.forum.queue[0] in b.forum.topics
  {
    FrontFacts(b, h);
  }

  lemma RememberNone(m: map<Key, nat>, born: nat)
    ensures Remember(m, Forgotten(born, [])) == m
  {
  }

  lemma RememberOne(m: map<Key, nat>, gone: Forgotten, i: nat)
    requires i < |gone.ids|
    ensures var r := Remember(m, Forgotten(gone.born, gone.ids[..i]));
            Remember(m, Forgotten(gone.born, gone.ids[..i + 1]))
            == if gone.ids[i] in r then r else r[gone.ids[i] := gone.born]
  {
    assert gone.ids[..i + 1] == gone.ids[..i] + [gone.ids[i]];
  }

  lemma MissingId(m: map<Key, nat>, ids: seq<Key>, i: nat)
    requires i < |ids| && ids[i] !in Without(m, ids[..i])
    ensures !ForgetOk(m, ids)
  {
    if ids[i] in m {
      var j :| 0 <= j < i && ids[..i][j] == ids[i];
      assert ids[j] == ids[i];
    }
  }

  lemma RestoreUnfold(f: Forum, log: seq<Expired>)
    requires log != [] && LogReady(f.joined, log)
    ensures Restore(f, log) == Restore(RestoreFront(f, log[0]), log[1..])
    ensures Worth(log) == Worth(log[1..]) + log[0].topic.balance
    ensures EntryReady(f.joined, log[0])
    ensures LogReady(RestoreFront(f, log[0]).joined, log[1..])
    ensures Worth(log[1..]) >= 0
  {
    hide EntryReady;
    assert LogReady(f.joined, log[1..]) by {
      forall i | 0 <= i < |log[1..]| ensures EntryReady(f.joined, log[1..][i]) {
        assert EntryReady(f.joined, log[i + 1]);
      }
    }
    WorthNonNegative(f.joined, log[1..]);
    LogReadyKeys(f.joined, RestoreFront(f, log[0]).joined, log[1..]);
  }

  lemma RestoreNone(f: Forum)
    ensures Restore(f, []) == f && Worth([]) == 0
  {
  }

  lemma TxsNone(b: Books, h: nat)
    ensures TxsFit(b, [], h, true) && ApplyTxs(b, [], h, true) == b
  {
  }

  lemma NotAllOk(b: Books, txs: seq<Tx>, i: nat, h: nat)
    requires i < |txs| && !(TxsFit(b, txs[..i + 1], h, true) && InWindow(txs[i], h))
    ensures !TxsOk(b, txs, h)
  {
    hide TxsFit, InWindow;
    if TxsFit(b, txs, h, true) {
      TxsFitPrefix(b, txs, i + 1, h, true);
    }
  }

  // ---- Facts about whole blocks

  lemma SameIds(x: Books, b: Books, h: nat)
    requires x == ExpireBooks(b, h)
    ensures x.txMap == b.txMap
  {
    hide Expire, ExpiredLog;
  }

  lemma PreparedParts(s: State, h: nat)
    requires h == Height(s.cur) + 1
    ensures Prepare(s, h) == s.(books := ForgetBooks(ExpireBooks(s.books, h), h, LeavingIds(s.byHeight, h)),
                                undoTopics := LogTopics(s.undoTopics, s.books.forum, h),
                                undoTxs := LogTxs(s.undoTxs, LeavingIds(s.byHeight, h), h))
    ensures NextBooks(s) == ForgetBooks(ExpireBooks(s.books, h), h, LeavingIds(s.byHeight, h))
  {
    hide LogTopics, LogTxs, ForgetBooks, ExpireBooks, LeavingIds;
  }

  /** What the checks of a block come to once expiry and forgetting are known not to fail. */
  lemma BlockOkShape(s: State, b: Block)
    requires b.Block? && b.parent == s.cur && HeaderOk(b)
    requires SoundBoundary(s) && Funded(s.books, Height(s.cur))
    ensures BlockOk(s, b) <==>
              |b.txs| <= MAX_TXS && b.miner in s.books.reg.accounts && TxsOk(NextBooks(s), b.txs, Height(b))
    ensures Funded(NextBooks(s), Height(b)) && LiveFrom(NextBooks(s).forum, Oldest(Height(b)))
    ensures NextBooks(s).reg == s.books.reg
  {
    hide TxsOk, NextBooks, HeaderOk, PrepareOk, SoundBoundary, Funded, LiveFrom, BlockOk;
    NextStands(s);
    BlockOkWhen(s, b);
  }

  lemma AttachedParts(s: State, b: Block, q: State, t: State)
    requires b.Block? && q == Prepare(s, Height(b))
    requires t.books == BlockBooks(q.books, b) && t.rewarded == s.rewarded[b := BlockRewarded(q.books, b)]
    requires t.undoTopics == q.undoTopics && t.undoTxs == q.undoTxs
    requires t.cur == b && t.byHeight == s.byHeight[Height(b) := b] && t.inMain == s.inMain + {b}
    ensures t == ApplyBlock(s, b)
  {
    hide PrepareBooks, BlockBooks, BlockRewarded, LogTopics, LogTxs;
  }

  lemma NothingToUndo(x: Books, p: Books, h: nat, index: bool)
    ensures UndoTxs(x, [], index) == x && BareTxs(p, [], h, index) == p
  {
  }

  /** `r` is the ledger, without joined lists and members, that the current block was applied to, and its undo entry is
      there. */
  ghost predicate Undoable(s: State, r: State) {
    && s.cur.Block? && r.cur == s.cur.parent && BareBoundary(r) && Funded(r.books, Height(r.cur)) && BareOk(r, s.cur)
    && Strip(s.books) == BareBlockBooks(NextBooks(r), s.cur)
    && s.cur in s.rewarded && s.rewarded[s.cur] == BareRewarded(NextBooks(r), s.cur)
    && (Height(s.cur) >= TOPIC_LIFE_TIME + 2 ==>
          var log := LogAt(s.undoTopics, UndoKey(Height(s.cur)));
          FitLog(log) && StripLog(log) == ExpiredLog(r.books.forum, Height(s.cur)))
  }

  lemma UndoTarget(s: State, top: nat) returns (r: State)
    requires Steady(s, top) && s.cur.Block? && InReach(Height(s.cur.parent), top)
    ensures Undoable(s, r)
  {
    hide BareBoundary, Funded, BareOk, BareBlock, NextBooks, BareBlockBooks, BareRewarded, ExpiredLog, LogAt,
         BareReplay, UndoOk, IndexOk, RewardsOk, FitForum, FitLogs, FitLog, StripState, Strip, StripLog, BareLog;
    BareParent(s.cur);
    r := BareReplay(s.cur.parent).value;
    ParentStands(s.cur, r);
    RewardMark(s);
    BareBooksAre(r, s.cur);
    if Height(s.cur) >= TOPIC_LIFE_TIME + 2 {
      BareNextReplay(s.cur);
      BareIndex(r);
      StripParts(s);
      EntriesAt(StripState(s), r, top, BareLog);
      StripLogAt(s.undoTopics, UndoKey(Height(s.cur)));
      FitLogAt(s.undoTopics, UndoKey(Height(s.cur)));
    }
  }

  lemma UndoableBlock(s: State, r: State)
    requires Undoable(s, r)
    ensures var b, h, p := s.cur, Height(s.cur), NextBooks(r);
            && b.Block? && Strip(p) == p && Funded(p, h) && LiveFrom(p.forum, Oldest(h))
            && BareFit(p, b.txs, h, true) && b.miner in p.reg.accounts && |b.txs| <= MAX_TXS
            && Strip(s.books) == BareBlockBooks(p, b) && b in s.rewarded && s.rewarded[b] == BareRewarded(p, b)
  {
    hide BareBoundary, Funded, BareOk, NextBooks, BareBlockBooks, BareRewarded, ExpiredLog, BareFit, LiveFrom, Strip;
    BlockStands(s.cur, r);
  }

  lemma UndoableLog(s: State, r: State, x: Books)
    requires Undoable(s, r) && Strip(x) == NextBooks(r)
    ensures Height(s.cur) >= TOPIC_LIFE_TIME + 2 ==>
              var log := LogAt(s.undoTopics, UndoKey(Height(s.cur)));
              LogReady(x.forum.joined, log) && RESERVE in x.bal && Worth(log) <= x.bal[RESERVE] <= TOTAL
  {
    hide SoundBoundary, Funded, NextBooks, BareBlockBooks, BareRewarded, ExpiredLog, BareOk, LogReady, Worth, Strip,
         StripLog, FitLog, LogAt, Sound, NonNegative;
    if Height(s.cur) >= TOPIC_LIFE_TIME + 2 {
      var log := LogAt(s.undoTopics, UndoKey(Height(s.cur)));
      BareNext(r);
      FundedSound(r.books, Height(r.cur));
      SoundOlder(r.books, Height(r.cur), Height(s.cur));
      FundedNonNegative(r.books, Height(r.cur));
      StrippedReady(r.books, Height(s.cur), log);
      StripWorth(log);
      RestoreStands(x, r, log);
    }
  }

  lemma UndoneParts(s: State)
    requires s.cur.Block? && s.cur in s.rewarded
    ensures var b, h := s.cur, Height(s.cur);
            var u := Unprepare(s.(books := UnblockBooks(s.books, b, s.rewarded[b])), h);
            UndoBlock(s) == State(u.books, u.undoTopics, u.undoTxs, b.parent, s.byHeight - {h}, s.inMain - {b},
                                  s.rewarded)
  {
    hide UnblockBooks, Unprepare;
  }

  // ---- Facts about rollbacks, paths and switches

  /** Above the target the current block can be undone. */
  lemma UndoAhead(s: State, f: Block, top: nat)
    requires Steady(s, top) && IsAncestor(f, s.cur) && InReach(Height(f), top)
    ensures Height(s.cur) > Height(f) ==>
              && s.cur.Block? && InReach(Height(s.cur.parent), top) && IsAncestor(f, s.cur.parent) && CanUndo(s)
  {
    hide Steady, CanUndo, UndoBlock;
    if Height(s.cur) > Height(f) {
      AncestorHeight(f, s.cur.parent);
      SteadyUndo(s, top);
    }
  }

  lemma SteadyRetains(s: State, top: nat, n: nat)
    requires Steady(s, top) && n <= Height(s.cur) && InReach(n, top)
    ensures Retains(s, n)
  {
    hide Core, FitState, Retains;
    RetainsIff(s, top, n);
  }

  lemma UndoStep(s: State, target: nat)
    requires Height(s.cur) > target && CanUndo(s) && RollbackDefined(s, target)
    ensures Rollback(s, target) == Rollback(UndoBlock(s), target)
    ensures LoopDefined(s.books.forum, s.cur.txs) && RollbackDefined(UndoBlock(s), target)
  {
    hide CanUndo, UndoBlock, LoopDefined;
  }

  lemma UndoEnd(s: State, f: Block)
    requires IsAncestor(f, s.cur) && (Height(s.cur) > Height(f) ==> !CanUndo(s))
    ensures Rollback(s, Height(f)) == s
    ensures Height(s.cur) <= Height(f) ==> s.cur == f
  {
    AncestorHeight(f, s.cur);
    hide CanUndo, UndoBlock;
  }

  lemma {:induction false} PathBlock(a: Block, b: Block, i: nat)
    requires IsAncestor(a, b) && i < |PathFrom(a, b)| && HeadersOk(b)
    ensures var p := PathFrom(a, b);
            p[i].Block? && p[i].parent == (if i == 0 then a else p[i - 1]) && IsAncestor(p[i], b) && HeaderOk(p[i])
  {
    hide HeaderOk;
    if i < |PathFrom(a, b)| - 1 {
      PathBlock(a, b.parent, i);
    } else {
      PathEnd(a, b.parent);
    }
  }

  lemma PathEnd(a: Block, b: Block)
    requires IsAncestor(a, b)
    ensures var p := PathFrom(a, b); if p == [] then a == b else p[|p| - 1] == b
  {
  }

  lemma BlocksStep(s: State, path: seq<Block>, i: nat)
    requires i < |path|
    ensures ApplyBlocks(s, path[..i]).Some? ==>
              ApplyBlocks(s, path[..i + 1]) ==
                if BlockOk(ApplyBlocks(s, path[..i]).value, path[i])
                then Some(ApplyBlock(ApplyBlocks(s, path[..i]).value, path[i])) else None
  {
    hide BlockOk, ApplyBlock;
    assert path[..i + 1][..i] == path[..i];
  }

  lemma NoBlocks(s: State)
    ensures ApplyBlocks(s, []) == Some(s)
  {
  }

  /** A path whose first blocks already fail fails. */
  lemma {:induction false} BlocksFail(s: State, path: seq<Block>, n: nat)
    requires n <= |path| && ApplyBlocks(s, path[..n]).None?
    ensures ApplyBlocks(s, path).None?
    decreases |path|
  {
    hide BlockOk, ApplyBlock;
    if n < |path| {
      assert path[..|path| - 1][..n] == path[..n];
      BlocksFail(s, path[..|path| - 1], n);
    } else {
      assert path[..n] == path;
    }
  }

  lemma {:induction false} GenesisIsRoot(b: Block)
    ensures IsAncestor(Genesis, b)
  {
    if b.Block? {
      GenesisIsRoot(b.parent);
    }
  }

  lemma WalkDown(b: Block, target: Block)
    requires b != Genesis && IsAncestor(b, target)
    ensures b.Block? && IsAncestor(b.parent, target) && IsAncestor(Genesis, b.parent)
    ensures PathFrom(b.parent, target) == [b] + PathFrom(b, target)
  {
    GenesisIsRoot(b.parent);
    PathExtends(b.parent, b, target);
    assert PathFrom(b.parent, b.parent) == [];
  }

  /** Replaying from genesis is connecting the blocks of the path. */
  lemma {:induction false} ReplayIsApplyBlocks(b: Block)
    ensures IsAncestor(Genesis, b)
    ensures ApplyBlocks(INITIAL, PathFrom(Genesis, b)) == Replay(b)
  {
    hide BlockOk, ApplyBlock, INITIAL;
    GenesisIsRoot(b);
    if b.Block? {
      ReplayIsApplyBlocks(b.parent);
      var p := PathFrom(Genesis, b);
      assert p[..|p| - 1] == PathFrom(Genesis, b.parent);
    }
  }

  lemma InitialCur()
    ensures INITIAL.cur == Genesis
  {
  }

  lemma RollbackHere(s: State, top: nat)
    requires Steady(s, top)
    ensures Rollback(s, Height(s.cur)) == s
    ensures AncestorAt(s.cur, Height(s.cur)) == s.cur && IsAncestor(s.cur, s.cur)
    ensures Faithful(s, top) ==> JoinedBack(s, s.cur)
  {
    hide Tracks, JoinedSame, JoinedBack, Core, FitState;
    if Faithful(s, top) {
      FaithfulReach(s, top);
      RollbackFaithfulIff(s, s.cur, top);
    }
  }

  lemma FaithfulReach(s: State, top: nat)
    requires Faithful(s, top)
    ensures InReach(Height(s.cur), top)
  {
  }

  // ---- Facts about mine_tx

  /** The books `b` are what the selected transactions make of `p`. */
  ghost predicate Chosen(b: Books, p: Books, mined: seq<Tx>, h: nat) {
    Funded(b, h) && TxsFit(p, mined, h, false) && b == ApplyTxs(p, mined, h, false)
  }

  lemma ChosenMeans(b: Books, p: Books, mined: seq<Tx>, h: nat)
    requires Chosen(b, p, mined, h)
    ensures TxsFit(p, mined, h, false) && b == ApplyTxs(p, mined, h, false)
  {
  }

  lemma NoneSelected(p: Books, pool: seq<Tx>, h: nat)
    requires Funded(p, h)
    ensures Parts(pool, pool, [])
    ensures Chosen(p, p, [], h)
  {
  }

  /** The pool is what is left and what was selected. */
  ghost predicate Parts(pool: seq<Tx>, uv: seq<Tx>, mined: seq<Tx>) {
    multiset(uv) + multiset(mined) == multiset(pool)
  }

  lemma PoolSplit(pool: seq<Tx>, uv: seq<Tx>, mined: seq<Tx>)
    requires Parts(pool, uv, mined) && uv != []
    ensures uv[0] in pool
    ensures Parts(pool, uv[1..] + [uv[0]], mined) && Parts(pool, uv[1..], mined + [uv[0]])
  {
    assert uv == [uv[0]] + uv[1..];
    assert uv[0] in multiset(pool);
  }

  lemma PartsMean(pool: seq<Tx>, uv: seq<Tx>, mined: seq<Tx>)
    requires Parts(pool, uv, mined)
    ensures multiset(mined) <= multiset(pool)
  {
  }

  /** A block on top of the current one with the selected transactions, a correct header and a registered miner. */
  ghost predicate NextWith(s: State, b: Block, mined: seq<Tx>) {
    b.Block? && b.parent == s.cur && HeaderOk(b) && b.miner in s.books.reg.accounts && b.txs == mined
  }

  lemma BodyParts(s: State, b: Block, mined: seq<Tx>)
    requires NextWith(s, b, mined)
    ensures b.Block? && b.parent == s.cur && HeaderOk(b) && b.miner in s.books.reg.accounts && b.txs == mined
    ensures Height(b) == Height(s.cur) + 1
  {
  }

  /** What the reverse loop needs of a trial. */
  lemma TrialStands(p: Books, mined: seq<Tx>, h: nat)
    requires Funded(p, h) && TxsFit(p, mined, h, false)
    ensures Strip(Strip(p)) == Strip(p) && Funded(Strip(p), h) && BareFit(Strip(p), mined, h, false)
    ensures Strip(ApplyTxs(p, mined, h, false)) == BareTxs(Strip(p), mined, h, false)
  {
    hide Funded, TxsFit, ApplyTxs, BareFit, BareTxs, Strip, Sound;
    FundedSound(p, h);
    StripSound(p, h);
    FundedStrip(p, h);
    BareTried(p, mined, h);
  }

  lemma TriedLog(s: State, h: nat, x: Books)
    requires SoundBoundary(s) && Funded(s.books, Height(s.cur)) && h == Height(s.cur) + 1
    requires Strip(x) == Strip(NextBooks(s))
    ensures h >= TOPIC_LIFE_TIME + 2 ==>
              var log := LogAt(Prepare(s, h).undoTopics, UndoKey(h));
              LogReady(x.forum.joined, log) && RESERVE in x.bal && Worth(log) <= x.bal[RESERVE] <= TOTAL
  {
    hide SoundBoundary, Funded, Unprepare, PrepareBooks, LogReady, Worth, ExpiredLog, LeavingIds, LogTxs, Strip, Sound,
         NonNegative;
    if h >= TOPIC_LIFE_TIME + 2 {
      FundedOlder(s.books, Height(s.cur), h);
      FundedSound(s.books, h);
      FundedNonNegative(s.books, h);
      ExpiredReady(s.books, h);
      RestoreStands(x, s, ExpiredLog(s.books.forum, h));
    }
  }

  lemma TriedIs(s: State, txs: seq<Tx>, h: nat)
    requires h == Height(s.cur) + 1
    ensures Tried(s, txs) ==
              Unprepare(Prepare(s, h).(books := UndoTxs(ApplyTxs(NextBooks(s), txs, h, false), txs, false)), h)
  {
    hide Unprepare, PrepareBooks, ApplyTxs, UndoTxs, LogTopics, LogTxs;
  }

  // ---- Facts about check_balance

  lemma CoinsLess(byId: map<nat, Pubkey>, bal: Balances, i: nat)
    requires forall j :: j in byId ==> byId[j] in bal
    requires i in byId
    ensures MapSum(CoinsById(byId, bal)) == bal[byId[i]] + MapSum(CoinsById(byId - {i}, bal))
    ensures |byId - {i}| < |byId|
  {
    hide MapSum;
    SumOut(CoinsById(byId, bal), i);
    assert CoinsById(byId, bal) - {i} == CoinsById(byId - {i}, bal);
    assert byId == (byId - {i})[i := byId[i]];
    assert (byId - {i}).Keys == byId.Keys - {i};
    assert |byId.Keys - {i}| < |byId.Keys|;
    assert |byId - {i}| == |(byId - {i}).Keys| && |byId| == |byId.Keys|;
  }

  lemma AddModulo(a: int, b: int)
    ensures (a % TWO64 + b) % TWO64 == (a + b) % TWO64
  {
  }

  lemma NoCoins(bal: Balances)
    ensures MapSum(CoinsById(map[], bal)) == 0
  {
    assert CoinsById(map[], bal) == map[];
  }

  /** On every steady ledger check_balance succeeds. */
  lemma BalanceChecks(s: State, top: nat)
    requires Steady(s, top)
    ensures forall i :: i in s.books.reg.byId ==> s.books.reg.byId[i] in s.books.bal
    ensures forall k :: k in s.books.forum.queue ==> k in s.books.forum.topics
    ensures MapSum(CoinsById(s.books.reg.byId, s.books.bal))
            + SumTopics(s.books.forum.queue, s.books.forum.topics) == TOTAL
  {
    hide Steady, Funded, MapSum, SumTopics, IdsOk, Sound, SoundBoundary;
    SteadyFunded(s, top);
    FundedSound(s.books, Height(s.cur));
    SteadyIds(s, top);
    CensusTotal(s.books, Height(s.cur));
    QueuedAreLive(s.books, Height(s.cur));
  }

  lemma QueuedAreLive(b: Books, h: nat)
    requires Sound(b, h)
    ensures forall k :: k in b.forum.queue ==> k in b.forum.topics
  {
  }

  lemma SteadyIds(s: State, top: nat)
    requires Steady(s, top)
    ensures IdsOk(s.books.reg)
  {
    hide IdsOk, NamesOk, StripForum, UndoOk, RewardsOk, IndexOk, BareReplay, FitState, StripState;
    BareIds(s.cur);
  }
}
