/** Facts about the books that the loops of the ledger class rely on. */
module LedgerFacts {
  import opened Lists
  import opened Chain
  import opened Books
  import opened Inverse
  import opened Invariant
  import opened Expiry
  import opened Blocks
  import opened Conservation

  // ---- Leaving and rejoining a topic, member by member

  /** The accounts of the first `n` members. */
  function Whos(ms: seq<Member>, n: nat): set<Pubkey>
    requires n <= |ms|
  {
    set i | 0 <= i < n :: ms[i].who
  }

  function LeaveSome(joined: map<Pubkey, seq<Key>>, who: set<Pubkey>, k: Key): map<Pubkey, seq<Key>> {
    map p | p in joined :: if p in who then EraseFirst(joined[p], k) else joined[p]
  }

  function RejoinSome(joined: map<Pubkey, seq<Key>>, who: set<Pubkey>, k: Key): map<Pubkey, seq<Key>> {
    map p | p in joined :: if p in who then [k] + joined[p] else joined[p]
  }

  lemma AllLeft(joined: map<Pubkey, seq<Key>>, t: Topic, k: Key)
    ensures LeaveSome(joined, Whos(t.members, |t.members|), k) == LeaveAll(joined, t, k)
    ensures RejoinSome(joined, Whos(t.members, |t.members|), k) == RejoinAll(joined, t, k)
  {
    hide EraseFirst;
    var w := Whos(t.members, |t.members|);
    assert forall p :: p in w <==> IsMember(t, p);
  }

  lemma NoneLeft(joined: map<Pubkey, seq<Key>>, t: Topic, k: Key)
    ensures LeaveSome(joined, Whos(t.members, 0), k) == joined
    ensures RejoinSome(joined, Whos(t.members, 0), k) == joined
  {
    hide EraseFirst;
  }

  /** One more member leaves, or comes back. */
  lemma LeaveStep(joined: map<Pubkey, seq<Key>>, t: Topic, i: nat, k: Key)
    requires i < |t.members| && Distinct(t.members) && t.members[i].who in joined
    ensures var who := t.members[i].who;
            var some := LeaveSome(joined, Whos(t.members, i), k);
            && who in some && some[who] == joined[who]
            && LeaveSome(joined, Whos(t.members, i + 1), k) == some[who := EraseFirst(some[who], k)]
    ensures var who := t.members[i].who;
            var some := RejoinSome(joined, Whos(t.members, i), k);
            && who in some && some[who] == joined[who]
            && RejoinSome(joined, Whos(t.members, i + 1), k) == some[who := [k] + some[who]]
  {
    hide EraseFirst;
    var who := t.members[i].who;
    assert who !in Whos(t.members, i);
    assert Whos(t.members, i + 1) == Whos(t.members, i) + {who};
  }

  // ---- Expiry

  lemma LogGrows(a: seq<Expired>, e: Expired, log: seq<Expired>)
    ensures (a + [e]) + log == a + ([e] + log)
    ensures Worth([e] + log) == e.topic.balance + Worth(log)
  {
    assert ([e] + log)[1..] == log;
  }

  lemma AddTwice(m: Balances, who: Pubkey, v: int, w: int)
    ensures AddBal(AddBal(m, who, v), who, w) == AddBal(m, who, w + v)
  {
  }

  lemma AddZero(m: Balances, who: Pubkey)
    requires who in m
    ensures AddBal(m, who, 0) == m
  {
  }

  // ---- Transactions of a block

  lemma TxsStep(b: Books, txs: seq<Tx>, i: nat, h: nat, index: bool)
    requires i < |txs|
    ensures TxsFit(b, txs[..i + 1], h, index) <==>
              TxsFit(b, txs[..i], h, index) && FormatOk(txs[i]) && TxOk(ApplyTxs(b, txs[..i], h, index), txs[i])
    ensures ApplyTxs(b, txs[..i + 1], h, index) == ApplyTx(ApplyTxs(b, txs[..i], h, index), txs[i], h, index)
    ensures forall s :: UndoTxs(s, txs[..i + 1], index) == UndoTxs(UndoTx(s, txs[i], index), txs[..i], index)
  {
    hide TxOk, FormatOk, ApplyTx, UndoTx;
    assert txs[..i + 1][..i] == txs[..i];
  }

  // ---- The entries of the undo logs

  /** What restoring an expired topic relies on. */
  ghost predicate EntryReady(joined: map<Pubkey, seq<Key>>, e: Expired) {
    && e.topic.balance >= 0
    && Distinct(e.topic.members)
    && forall i :: 0 <= i < |e.topic.members| ==> e.topic.members[i].who in joined
  }

  ghost predicate LogReady(joined: map<Pubkey, seq<Key>>, log: seq<Expired>) {
    forall i :: 0 <= i < |log| ==> EntryReady(joined, log[i])
  }

  lemma LogReadyKeys(m: map<Pubkey, seq<Key>>, n: map<Pubkey, seq<Key>>, log: seq<Expired>)
    requires LogReady(m, log) && forall p :: p in m ==> p in n
    ensures LogReady(n, log)
  {
    forall i | 0 <= i < |log| ensures EntryReady(n, log[i]) {
      assert EntryReady(m, log[i]);
    }
  }

  lemma {:induction false} ExpiredReady(b: Books, h: nat)
    requires Sound(b, h) && NonNegative(b)
    ensures LogReady(b.forum.joined, ExpiredLog(b.forum, h))
    decreases |b.forum.queue|
  {
    hide Sound, LogReady;
    var f := b.forum;
    if FrontIsOld(f, h) {
      var k := f.queue[0];
      var d := b.(forum := ExpireFront(f));
      ExpireFrontSound(b, h);
      ExpiredReady(d, h);
      FrontReady(b, h);
      LogReadyKeys(d.forum.joined, f.joined, ExpiredLog(d.forum, h));
      LogReadyAppend(f.joined, ExpiredLog(d.forum, h), Expired(k, f.topics[k]));
    } else {
      LogReadyEmpty(f.joined);
    }
  }

  lemma LogReadyEmpty(joined: map<Pubkey, seq<Key>>)
    ensures LogReady(joined, [])
  {
  }

  lemma LogReadyAppend(joined: map<Pubkey, seq<Key>>, log: seq<Expired>, e: Expired)
    requires LogReady(joined, log) && EntryReady(joined, e)
    ensures LogReady(joined, log + [e])
  {
    hide EntryReady;
  }

  lemma FrontReady(b: Books, h: nat)
    requires Sound(b, h) && NonNegative(b) && b.forum.queue != [] && b.forum.queue[0] in b.forum.topics
    ensures EntryReady(b.forum.joined, Expired(b.forum.queue[0], b.forum.topics[b.forum.queue[0]]))
  {
    hide QueueOk;
    var k := b.forum.queue[0];
    var t := b.forum.topics[k];
    assert TopicOk(b, k, t);
    forall i | 0 <= i < |t.members| ensures t.members[i].who in b.forum.joined {
      assert MemberOk(b, t.members[i], t.born);
      assert AccountOk(b, t.members[i].who);
    }
  }

  lemma {:induction false} WorthNonNegative(joined: map<Pubkey, seq<Key>>, log: seq<Expired>)
    requires LogReady(joined, log)
    ensures Worth(log) >= 0
  {
    if log != [] {
      assert EntryReady(joined, log[0]);
      forall i | 0 <= i < |log[1..]| ensures EntryReady(joined, log[1..][i]) {
        assert EntryReady(joined, log[i + 1]);
      }
      WorthNonNegative(joined, log[1..]);
    }
  }
}
