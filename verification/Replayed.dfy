/** What every ledger rebuilt from genesis satisfies. */
module Replayed {
  import opened Lists
  import opened Chain
  import opened Books
  import opened Inverse
  import opened Invariant
  import opened Expiry
  import opened Blocks

  /** The entries of the id map for a block of height `h`. */
  function AtHeight(ids: seq<Key>, h: nat): map<Key, nat> {
    map k | k in ids :: h
  }

  /** The ids of the blocks of the branch from height `lo` on, with their heights. */
  ghost function IdMap(b: Block, lo: int): map<Key, nat> {
    if b.Genesis? || Height(b) < lo then map[]
    else IdMap(b.parent, lo) + AtHeight(Ids(b.txs), Height(b))
  }

  /** No id occurs twice in the blocks from height `lo` on. */
  ghost predicate FreshIds(b: Block, lo: int) {
    b.Genesis? || Height(b) < lo ||
    (NoDup(Ids(b.txs)) && (forall k :: k in Ids(b.txs) ==> k !in IdMap(b.parent, lo)) && FreshIds(b.parent, lo))
  }

  lemma {:induction false} IdMapNarrow(b: Block, lo: int, hi: int)
    requires lo <= hi
    ensures forall k :: k in IdMap(b, hi) ==> k in IdMap(b, lo)
    ensures FreshIds(b, lo) ==> FreshIds(b, hi)
  {
    if b.Block? && Height(b) >= lo {
      IdMapNarrow(b.parent, lo, hi);
    }
  }

  lemma {:induction false} IdMapLow(b: Block, lo: int, hi: int)
    requires lo <= 1 && hi <= 1
    ensures IdMap(b, lo) == IdMap(b, hi)
  {
    if b.Block? {
      IdMapLow(b.parent, lo, hi);
    }
  }

  /** Taking the ids of an older block out of a map before or after a block's own are put in. */
  lemma WithoutLater(m: map<Key, nat>, ids: seq<Key>, own: seq<Key>, h: nat)
    requires forall k :: k in own ==> k !in ids
    ensures Without(m + AtHeight(own, h), ids) == Without(m, ids) + AtHeight(own, h)
  {
  }

  lemma WithoutOwn(own: seq<Key>, h: nat)
    ensures Without(map[] + AtHeight(own, h), own) == map[]
    ensures forall k :: k in own ==> k in map[] + AtHeight(own, h) && (map[] + AtHeight(own, h))[k] == h
  {
  }

  lemma StillThere(m: map<Key, nat>, own: seq<Key>, h: nat)
    requires forall k :: k in own ==> k !in m
    ensures forall k :: k in m ==> k in m + AtHeight(own, h) && (m + AtHeight(own, h))[k] == m[k]
  {
  }

  /** The ids of the block at height `lo` are in the map, with that height, and nothing else has it. */
  lemma {:induction false} IdsOfLowest(b: Block, lo: nat)
    requires 1 <= lo <= Height(b) && FreshIds(b, lo)
    ensures NoDup(Ids(Txs(AncestorAt(b, lo))))
    ensures forall k :: k in Ids(Txs(AncestorAt(b, lo))) ==> k in IdMap(b, lo) && IdMap(b, lo)[k] == lo
    ensures Without(IdMap(b, lo), Ids(Txs(AncestorAt(b, lo)))) == IdMap(b, lo + 1)
  {
    hide AtHeight, Without, Ids, NoDup;
    var ids, own := Ids(Txs(AncestorAt(b, lo))), Ids(b.txs);
    if Height(b) > lo {
      IdsOfLowest(b.parent, lo);
      assert forall k :: k in own ==> k !in ids;
      WithoutLater(IdMap(b.parent, lo), ids, own, Height(b));
      StillThere(IdMap(b.parent, lo), own, Height(b));
    } else {
      assert IdMap(b.parent, lo) == map[];
      WithoutOwn(own, lo);
    }
  }

  /** The topics that `txs` open, in order. */
  function Opened(txs: seq<Tx>): seq<Key> {
    if txs == [] then []
    else Opened(txs[..|txs| - 1]) + if txs[|txs| - 1].body.TxTopic? then [Hash(txs[|txs| - 1])] else []
  }

  /** The topics opened in the blocks of the branch from height `lo` on, in the order they were opened. */
  ghost function TopicIds(b: Block, lo: int): seq<Key> {
    if b.Genesis? || Height(b) < lo then [] else TopicIds(b.parent, lo) + Opened(b.txs)
  }

  lemma {:induction false} TopicIdsLow(b: Block, lo: int, hi: int)
    requires lo <= 1 && hi <= 1
    ensures TopicIds(b, lo) == TopicIds(b, hi)
  {
    if b.Block? {
      TopicIdsLow(b.parent, lo, hi);
    }
  }

  lemma {:induction false} OpenedAreIds(txs: seq<Tx>)
    ensures forall k :: k in Opened(txs) ==> k in Ids(txs)
  {
    if txs != [] {
      OpenedAreIds(txs[..|txs| - 1]);
      IdsSplit(txs);
    }
  }

  lemma {:induction false} TopicIdsAreIds(b: Block, lo: int)
    ensures forall k :: k in TopicIds(b, lo) ==> k in IdMap(b, lo)
    ensures forall k :: k in IdMap(b, lo) ==> lo <= IdMap(b, lo)[k] <= Height(b)
  {
    if b.Block? && Height(b) >= lo {
      TopicIdsAreIds(b.parent, lo);
      OpenedAreIds(b.txs);
    }
  }

  /** The oldest of these topics are those of the lowest block. */
  lemma {:induction false} TopicIdsOfLowest(b: Block, lo: nat)
    requires 1 <= lo <= Height(b)
    ensures TopicIds(b, lo) == Opened(Txs(AncestorAt(b, lo))) + TopicIds(b, lo + 1)
  {
    hide Opened;
    if Height(b) > lo {
      TopicIdsOfLowest(b.parent, lo);
    } else {
      assert TopicIds(b.parent, lo) == [];
    }
  }

  /** Putting the lowest block's ids back restores the wider map. */
  lemma RememberLowest(b: Block, lo: nat)
    requires 1 <= lo <= Height(b) && FreshIds(b, lo)
    ensures Remember(IdMap(b, lo + 1), Forgotten(lo, Reversed(Ids(Txs(AncestorAt(b, lo)))))) == IdMap(b, lo)
  {
    hide IdMap, FreshIds, Ids, Txs, Reversed, Without, Remember;
    IdsOfLowest(b, lo);
    RememberWithout(IdMap(b, lo), Ids(Txs(AncestorAt(b, lo))), lo);
  }

  lemma RememberWithout(m: map<Key, nat>, ids: seq<Key>, born: nat)
    requires forall k :: k in ids ==> k in m && m[k] == born
    ensures Remember(Without(m, ids), Forgotten(born, Reversed(ids))) == m
  {
    ReversedSame(ids);
    hide Reversed;
  }

  lemma ReversedSame<T(!new)>(q: seq<T>)
    ensures forall x :: x in Reversed(q) <==> x in q
  {
    forall x ensures x in Reversed(q) <==> x in q {
      if x in q {
        var i :| 0 <= i < |q| && q[i] == x;
        assert Reversed(q)[|q| - 1 - i] == x;
      }
    }
  }

  // ---- Transactions of one block

  /** The oldest block whose topics are live after block `h`. */
  function Oldest(h: nat): nat {
    if h > TOPIC_LIFE_TIME then h - TOPIC_LIFE_TIME else 1
  }

  ghost predicate LiveFrom(f: Forum, lo: int) {
    forall k :: k in f.topics ==> f.topics[k].born >= lo
  }

  lemma LiveKept(f: Forum, tx: Tx, h: nat, lo: int)
    requires LiveFrom(f, lo) && h >= lo && ForumOk(f, tx)
    ensures LiveFrom(ApplyForum(f, tx, h), lo)
  {
    hide FindReply, NormalReplyAt, ReplyOwner;
  }

  lemma IdsSplit(txs: seq<Tx>)
    requires txs != []
    ensures Ids(txs) == Ids(txs[..|txs| - 1]) + [Hash(txs[|txs| - 1])]
  {
  }

  lemma NoIds(m: map<Key, nat>, h: nat)
    ensures Ids([]) == [] && NoDup(Ids([])) && m + AtHeight(Ids([]), h) == m
  {
  }

  lemma AddIds(m: map<Key, nat>, ids: seq<Key>, id: Key, h: nat)
    requires NoDup(ids) && (forall k :: k in ids ==> k !in m) && id !in m + AtHeight(ids, h)
    ensures NoDup(ids + [id]) && forall k :: k in ids + [id] ==> k !in m
    ensures (m + AtHeight(ids, h))[id := h] == m + AtHeight(ids + [id], h)
  {
  }

  /** One transaction of a block. */
  lemma TxSound(c: Books, tx: Tx, h: nat, index: bool, lo: int)
    requires Sound(c, h) && TxOk(c, tx) && FormatOk(tx) && LiveFrom(c.forum, lo) && h >= lo
    ensures var d := ApplyTx(c, tx, h, index);
            && Sound(d, h) && LiveFrom(d.forum, lo)
            && Hash(tx) !in c.txMap && d.txMap == c.txMap[Hash(tx) := h]
            && d.forum.queue == c.forum.queue + (if tx.body.TxTopic? then [Hash(tx)] else [])
            && forall p :: p in c.reg.accounts ==> p in d.reg.accounts
  {
    hide Sound, ForumOk, FormatOk, ApplyRegistry, ApplyForum, ApplyMoney, LiveFrom, FeeDelta;
    SoundKept(c, tx, h, index);
    LiveKept(c.forum, tx, h, lo);
    QueueGrows(c.forum, tx, h);
    AccountsGrow(c.reg, tx, h, index);
  }

  lemma QueueGrows(f: Forum, tx: Tx, h: nat)
    ensures ApplyForum(f, tx, h).queue == f.queue + if tx.body.TxTopic? then [Hash(tx)] else []
  {
    hide FindReply, AddReply, AddMember, PayReply;
  }

  /** The transactions of a block keep the books in order, enter each id exactly once and queue the topics they open. */
  lemma {:induction false} TxsSound(b: Books, txs: seq<Tx>, h: nat, index: bool, lo: int)
    requires Sound(b, h) && TxsFit(b, txs, h, index) && LiveFrom(b.forum, lo) && h >= lo
    ensures Sound(ApplyTxs(b, txs, h, index), h)
    ensures LiveFrom(ApplyTxs(b, txs, h, index).forum, lo)
    ensures NoDup(Ids(txs)) && forall k :: k in Ids(txs) ==> k !in b.txMap
    ensures ApplyTxs(b, txs, h, index).txMap == b.txMap + AtHeight(Ids(txs), h)
    ensures ApplyTxs(b, txs, h, index).forum.queue == b.forum.queue + Opened(txs)
    ensures forall p :: p in b.reg.accounts ==> p in ApplyTxs(b, txs, h, index).reg.accounts
    decreases |txs|
  {
    hide Sound, TxOk, FormatOk, ApplyTx, LiveFrom, Ids, AtHeight, NoDup;
    if txs == [] {
      NoIds(b.txMap, h);
    } else {
      var init, tx := txs[..|txs| - 1], txs[|txs| - 1];
      TxsSound(b, init, h, index, lo);
      TxSound(ApplyTxs(b, init, h, index), tx, h, index, lo);
      IdsSplit(txs);
      AddIds(b.txMap, Ids(init), Hash(tx), h);
    }
  }

  /** A block whose first transactions already fail a check fails. */
  lemma {:induction false} TxsFitPrefix(b: Books, txs: seq<Tx>, n: nat, h: nat, index: bool)
    requires n <= |txs| && TxsFit(b, txs, h, index)
    ensures TxsFit(b, txs[..n], h, index)
    decreases |txs|
  {
    hide TxOk, FormatOk, ApplyTxs;
    if n < |txs| {
      TxsFitPrefix(b, txs[..|txs| - 1], n, h, index);
      assert txs[..|txs| - 1][..n] == txs[..n];
    } else {
      assert txs[..n] == txs;
    }
  }

  /** They keep members and joined lists in step. */
  lemma {:induction false} TxsInv(b: Books, txs: seq<Tx>, h: nat, index: bool)
    requires Inv(b, h) && TxsFit(b, txs, h, index)
    ensures Inv(ApplyTxs(b, txs, h, index), h)
    decreases |txs|
  {
    hide Inv, TxOk, FormatOk, ApplyTx;
    if txs != [] {
      TxsInv(b, txs[..|txs| - 1], h, index);
      InvKept(ApplyTxs(b, txs[..|txs| - 1], h, index), txs[|txs| - 1], h, index);
    }
  }

  lemma AccountsGrow(reg: Registry, tx: Tx, h: nat, index: bool)
    ensures forall p :: p in reg.accounts ==> p in ApplyRegistry(reg, tx, h, index).accounts
  {
  }

  // ---- Expiry and forgetting at block h

  lemma QueueOlder(f: Forum, h: nat, h': nat)
    requires QueueOk(f, h) && h <= h'
    ensures QueueOk(f, h')
  {
  }

  /** Changing existing balances keeps the books in order. */
  lemma BalancesSound(b: Books, h: nat, m: Balances)
    requires Sound(b, h) && m.Keys == b.bal.Keys
    ensures Sound(b.(bal := m), h)
  {
    hide QueueOk;
    var d := b.(bal := m);
    assert forall p :: p in m <==> p in b.bal;
    forall p | p in d.reg.accounts ensures AccountOk(d, p) {
      assert AccountOk(b, p);
    }
    forall k | k in d.forum.topics ensures TopicOk(d, k, d.forum.topics[k]) {
      assert TopicOk(b, k, b.forum.topics[k]);
      TopicOkMono(b, d, k, d.forum.topics[k]);
    }
  }

  /** Forgetting ids older than every live topic keeps the books in order. */
  lemma ForgetSound(b: Books, h: nat, lo: int, ids: seq<Key>)
    requires Sound(b, h) && LiveFrom(b.forum, lo)
    requires forall k :: k in ids && k in b.txMap ==> b.txMap[k] < lo
    ensures Sound(b.(txMap := Without(b.txMap, ids)), h)
  {
    hide QueueOk;
    var d := b.(txMap := Without(b.txMap, ids));
    forall p | p in d.reg.accounts ensures AccountOk(d, p) {
      assert AccountOk(b, p);
    }
    forall k | k in d.forum.topics ensures TopicOk(d, k, d.forum.topics[k]) {
      assert TopicOk(b, k, b.forum.topics[k]);
      ForgetTopicOk(b, d, lo, k, d.forum.topics[k]);
    }
  }

  lemma ForgetTopicOk(b: Books, d: Books, lo: int, k: Key, t: Topic)
    requires TopicOk(b, k, t) && t.born >= lo
    requires d == b.(txMap := d.txMap)
    requires forall x :: x in b.txMap && b.txMap[x] >= lo ==> x in d.txMap && d.txMap[x] == b.txMap[x]
    ensures TopicOk(d, k, t)
  {
    forall i | 0 <= i < |t.replies| ensures ReplyOk(d, t.replies[i], t.born) {
      assert ReplyOk(b, t.replies[i], t.born);
    }
    forall i | 0 <= i < |t.members| ensures MemberOk(d, t.members[i], t.born) {
      assert MemberOk(b, t.members[i], t.born);
    }
  }

  /** The height index and the main-chain marks describe exactly the ancestors of the current block. */
  ghost predicate IndexOk(s: State) {
    && (forall n: nat :: n in s.byHeight <==> n <= Height(s.cur))
    && (forall n: nat :: n in s.byHeight ==> s.byHeight[n] == AncestorAt(s.cur, n))
    && (forall a :: a in s.inMain <==> IsAncestor(a, s.cur))
  }

  /** A ledger as it stands at a block boundary of the branch that ends in `s.cur`, whatever its joined lists hold: the
      books are in order, the id map holds exactly the ids of the last TOPIC_LIFE_TIME + 1 blocks, each with its height,
      and the queue exactly the topics opened in them, in order. */
  ghost predicate SoundBoundary(s: State) {
    var h := Height(s.cur);
    && Sound(s.books, h)
    && LiveFrom(s.books.forum, Oldest(h))
    && s.books.forum.queue == TopicIds(s.cur, h - TOPIC_LIFE_TIME)
    && s.books.txMap == IdMap(s.cur, h - TOPIC_LIFE_TIME)
    && FreshIds(s.cur, h - TOPIC_LIFE_TIME)
    && IndexOk(s)
  }

  ghost predicate Boundary(s: State) {
    SoundBoundary(s) && Linked(s.books.forum)
  }

  /** The live topics are exactly those opened in the last TOPIC_LIFE_TIME + 1 blocks, each as old as the block whose
      transaction opened it. */
  lemma LiveTopics(s: State, k: Key)
    requires SoundBoundary(s)
    ensures k in s.books.forum.topics <==> k in TopicIds(s.cur, Height(s.cur) - TOPIC_LIFE_TIME)
    ensures k in s.books.forum.topics ==>
              && k in IdMap(s.cur, Height(s.cur) - TOPIC_LIFE_TIME)
              && s.books.forum.topics[k].born == IdMap(s.cur, Height(s.cur) - TOPIC_LIFE_TIME)[k]
  {
    hide IdMap, FreshIds, LiveFrom, IndexOk, TopicIds, SortedByAge;
    if k in s.books.forum.topics {
      assert TopicOk(s.books, k, s.books.forum.topics[k]);
    }
  }

  lemma LeavingIdsAre(s: State, h: nat)
    requires IndexOk(s) && h == Height(s.cur) + 1 && h >= TOPIC_LIFE_TIME + 2
    ensures LeavingIds(s.byHeight, h) == Ids(Txs(AncestorAt(s.cur, UndoKey(h))))
  {
  }

  /** The books block `h` starts from. */
  ghost function NextBooks(s: State): Books {
    PrepareBooks(s.books, Height(s.cur) + 1, LeavingIds(s.byHeight, Height(s.cur) + 1))
  }

  /** Expiry takes the topics that have outlived their life time off the front of the queue. */
  lemma {:induction false} ExpireQueue(b: Books, h: nat, a: seq<Key>, c: seq<Key>)
    requires Sound(b, h) && b.forum.queue == a + c
    requires forall k :: k in a ==> k in b.forum.topics && b.forum.topics[k].born + TOPIC_LIFE_TIME < h
    requires forall k :: k in c ==> k in b.forum.topics && b.forum.topics[k].born + TOPIC_LIFE_TIME >= h
    ensures Expire(b.forum, h).queue == c
    decreases |a|
  {
    hide Sound, LeaveAll;
    if a == [] {
      assert a + c == c;
    } else {
      assert b.forum.queue[0] == a[0] && b.forum.queue[1..] == a[1..] + c;
      assert forall k :: k in a[1..] + c <==> k in a[1..] || k in c;
      ExpireFrontSound(b, h);
      QueueNoDup(b, h);
      TailElements(b.forum.queue);
      ExpireQueue(b.(forum := ExpireFront(b.forum)), h, a[1..], c);
    }
  }

  lemma QueueNoDup(b: Books, h: nat)
    requires Sound(b, h)
    ensures NoDup(b.forum.queue)
  {
  }

  /** The height of a topic of the lowest block, and of one opened later. */
  lemma BornSplit(b: Block, lo: nat, k: Key)
    requires 1 <= lo <= Height(b) && FreshIds(b, lo)
    ensures k in Opened(Txs(AncestorAt(b, lo))) ==> k in IdMap(b, lo) && IdMap(b, lo)[k] == lo
    ensures k in TopicIds(b, lo + 1) ==> k in IdMap(b, lo) && IdMap(b, lo)[k] > lo
  {
    hide TopicIds, IdMap, Opened, Ids, Txs, FreshIds;
    IdsOfLowest(b, lo);
    OpenedAreIds(Txs(AncestorAt(b, lo)));
    TopicIdsAreIds(b, lo + 1);
    assert k in TopicIds(b, lo + 1) ==> k in Without(IdMap(b, lo), Ids(Txs(AncestorAt(b, lo))));
  }

  /** Which of the queued topics are from the block that leaves the window. */
  lemma LeavingBorn(s: State, lo: nat, k: Key)
    requires SoundBoundary(s) && 1 <= lo == Height(s.cur) - TOPIC_LIFE_TIME && k in s.books.forum.queue
    ensures k in s.books.forum.topics
    ensures k in Opened(Txs(AncestorAt(s.cur, lo))) ==> s.books.forum.topics[k].born == lo
    ensures k in TopicIds(s.cur, lo + 1) ==> s.books.forum.topics[k].born > lo
  {
    hide Sound, LiveFrom, IndexOk, TopicIds, IdMap, Opened, Txs, FreshIds;
    InQueue(s.books, Height(s.cur), k);
    LiveTopics(s, k);
    BornSplit(s.cur, lo, k);
  }

  /** The topics of the block that leaves the window expire, and no others. */
  lemma LeavingTopics(s: State, h: nat)
    requires SoundBoundary(s) && h == Height(s.cur) + 1 && h >= TOPIC_LIFE_TIME + 2
    ensures Expire(s.books.forum, h).queue == TopicIds(s.cur, h - TOPIC_LIFE_TIME)
  {
    hide Sound, LiveFrom, FreshIds, IndexOk, TopicIds, IdMap, Opened, Ids, Txs;
    var lo := UndoKey(h);
    var a, c := Opened(Txs(AncestorAt(s.cur, lo))), TopicIds(s.cur, lo + 1);
    TopicIdsOfLowest(s.cur, lo);
    assert forall k :: k in a + c <==> k in a || k in c;
    forall k | k in s.books.forum.queue
      ensures k in s.books.forum.topics
      ensures k in a ==> s.books.forum.topics[k].born == lo
      ensures k in c ==> s.books.forum.topics[k].born > lo
    {
      LeavingBorn(s, lo, k);
    }
    SoundOlder(s.books, h - 1, h);
    ExpireQueue(s.books, h, a, c);
  }

  lemma InQueue(b: Books, h: nat, k: Key)
    requires Sound(b, h)
    ensures k in b.forum.queue <==> k in b.forum.topics
  {
  }

  /** proc_topic_expired and proc_tx_map never fail on such a ledger, and leave exactly the topics and
      ids of the last TOPIC_LIFE_TIME blocks. */
  lemma PrepareSound(s: State)
    requires SoundBoundary(s)
    ensures PrepareOk(s, Height(s.cur) + 1)
    ensures Sound(NextBooks(s), Height(s.cur) + 1)
    ensures LiveFrom(NextBooks(s).forum, Oldest(Height(s.cur) + 1))
    ensures NextBooks(s).forum.queue == TopicIds(s.cur, Height(s.cur) + 1 - TOPIC_LIFE_TIME)
    ensures NextBooks(s).txMap == IdMap(s.cur, Height(s.cur) + 1 - TOPIC_LIFE_TIME)
    ensures FreshIds(s.cur, Height(s.cur) + 1 - TOPIC_LIFE_TIME)
    ensures NextBooks(s).reg == s.books.reg
  {
    hide SoundBoundary, NextBooks, PrepareOk, Sound, LiveFrom, FreshIds, IdMap, TopicIds;
    if Height(s.cur) + 1 < TOPIC_LIFE_TIME + 2 {
      PrepareEarly(s);
    } else {
      PrepareLate(s);
      PrepareLateIds(s);
    }
  }

  lemma PrepareEarly(s: State)
    requires SoundBoundary(s) && Height(s.cur) + 1 < TOPIC_LIFE_TIME + 2
    ensures PrepareOk(s, Height(s.cur) + 1)
    ensures Sound(NextBooks(s), Height(s.cur) + 1)
    ensures LiveFrom(NextBooks(s).forum, Oldest(Height(s.cur) + 1))
    ensures NextBooks(s).forum.queue == TopicIds(s.cur, Height(s.cur) + 1 - TOPIC_LIFE_TIME)
    ensures NextBooks(s).txMap == IdMap(s.cur, Height(s.cur) + 1 - TOPIC_LIFE_TIME)
    ensures FreshIds(s.cur, Height(s.cur) + 1 - TOPIC_LIFE_TIME)
    ensures NextBooks(s).reg == s.books.reg
  {
    hide Sound, LiveFrom, Expire, ExpiredLog, ExpireOk, FreshIds, IdMap, TopicIds, IndexOk;
    var h := Height(s.cur) + 1;
    SoundOlder(s.books, h - 1, h);
    IdMapNarrow(s.cur, h - 1 - TOPIC_LIFE_TIME, h - TOPIC_LIFE_TIME);
    IdMapLow(s.cur, h - 1 - TOPIC_LIFE_TIME, h - TOPIC_LIFE_TIME);
    TopicIdsLow(s.cur, h - 1 - TOPIC_LIFE_TIME, h - TOPIC_LIFE_TIME);
  }

  lemma PrepareLate(s: State)
    requires SoundBoundary(s) && Height(s.cur) + 1 >= TOPIC_LIFE_TIME + 2
    ensures Sound(NextBooks(s), Height(s.cur) + 1)
    ensures LiveFrom(NextBooks(s).forum, Oldest(Height(s.cur) + 1))
    ensures NextBooks(s).forum.queue == TopicIds(s.cur, Height(s.cur) + 1 - TOPIC_LIFE_TIME)
  {
    hide Sound, LiveFrom, Expire, ExpiredLog, ExpireOk, FreshIds, IdMap, TopicIds, IndexOk, Ids, Txs, Without;
    var h := Height(s.cur) + 1;
    var lo := UndoKey(h);
    LeavingTopics(s, h);
    SoundOlder(s.books, h - 1, h);
    IdsOfLowest(s.cur, lo);
    ExpiredBooks(s.books, h);
    LeavingIdsAre(s, h);
    ForgetSound(ExpireBooks(s.books, h), h, lo + 1, LeavingIds(s.byHeight, h));
  }

  lemma PrepareLateIds(s: State)
    requires SoundBoundary(s) && Height(s.cur) + 1 >= TOPIC_LIFE_TIME + 2
    ensures PrepareOk(s, Height(s.cur) + 1)
    ensures NextBooks(s).txMap == IdMap(s.cur, Height(s.cur) + 1 - TOPIC_LIFE_TIME)
    ensures FreshIds(s.cur, Height(s.cur) + 1 - TOPIC_LIFE_TIME)
    ensures NextBooks(s).reg == s.books.reg
  {
    hide Sound, LiveFrom, Expire, ExpiredLog, ExpireOk, FreshIds, IdMap, TopicIds, IndexOk, Ids, Txs, Without;
    var h := Height(s.cur) + 1;
    var lo := UndoKey(h);
    SoundOlder(s.books, h - 1, h);
    IdMapNarrow(s.cur, lo, lo + 1);
    IdsOfLowest(s.cur, lo);
    ExpireSound(s.books, h);
    LeavingIdsAre(s, h);
  }

  /** Members and joined lists stay in step. */
  lemma PrepareInv(s: State)
    requires Boundary(s)
    ensures Inv(NextBooks(s), Height(s.cur) + 1)
  {
    hide Sound, Linked, Boundary, SoundBoundary, NextBooks;
    PreparedForum(s);
    BoundaryInv(s);
    InvOlder(s.books, Height(s.cur), Height(s.cur) + 1);
    if Height(s.cur) + 1 >= TOPIC_LIFE_TIME + 2 {
      ExpireInv(s.books, Height(s.cur) + 1);
    }
    SoundNext(s);
  }

  lemma SoundNext(s: State)
    requires Boundary(s)
    ensures Sound(NextBooks(s), Height(s.cur) + 1)
  {
    hide SoundBoundary, NextBooks, Sound;
    PrepareSound(s);
  }

  lemma PreparedForum(s: State)
    ensures NextBooks(s).forum ==
              if Height(s.cur) + 1 < TOPIC_LIFE_TIME + 2 then s.books.forum
              else Expire(s.books.forum, Height(s.cur) + 1)
  {
    hide Expire, ExpiredLog, LeavingIds;
  }

  lemma BoundaryInv(s: State)
    requires Boundary(s)
    ensures Inv(s.books, Height(s.cur))
  {
  }

  lemma SoundOlder(b: Books, h: nat, h': nat)
    requires Sound(b, h) && h <= h'
    ensures Sound(b, h')
  {
    QueueOlder(b.forum, h, h');
  }

  lemma InvOlder(b: Books, h: nat, h': nat)
    requires Inv(b, h) && h <= h'
    ensures Inv(b, h')
  {
    SoundOlder(b, h, h');
  }

  lemma ExpiredBooks(b: Books, h: nat)
    requires Sound(b, h)
    ensures ExpireOk(b.forum, h)
    ensures Sound(b.(forum := Expire(b.forum, h), bal := AddBal(b.bal, RESERVE, Worth(ExpiredLog(b.forum, h)))), h)
    ensures LiveFrom(Expire(b.forum, h), h - TOPIC_LIFE_TIME)
  {
    ExpireSound(b, h);
    var m := AddBal(b.bal, RESERVE, Worth(ExpiredLog(b.forum, h)));
    hide Expire, ExpiredLog, ExpireOk;
    assert m.Keys == b.bal.Keys;
    BalancesSound(b.(forum := Expire(b.forum, h)), h, m);
  }

  lemma HasReserve(b: Books, h: nat)
    requires Sound(b, h)
    ensures RESERVE in b.bal
  {
  }

  lemma PayMinerKeys(m: Balances, miner: Pubkey, n: nat)
    requires miner in m
    ensures PayMiner(m, miner, n).Keys == m.Keys
  {
    var fees := AddBal(m, miner, n);
    assert fees.Keys == m.Keys;
    assert Rewards(m) ==> AddBal(fees, RESERVE, 0 - BLOCK_REWARD).Keys == m.Keys;
  }

  lemma MinerHasBalance(b: Books, txs: seq<Tx>, h: nat, lo: int, miner: Pubkey)
    requires Sound(b, h) && TxsFit(b, txs, h, true) && LiveFrom(b.forum, lo) && h >= lo
    requires miner in b.reg.accounts
    ensures miner in ApplyTxs(b, txs, h, true).bal
  {
    TxsSound(b, txs, h, true, lo);
    assert AccountOk(ApplyTxs(b, txs, h, true), miner);
  }

  lemma IndexKept(s: State, b: Block, t: State)
    requires IndexOk(s) && b.Block? && b.parent == s.cur
    requires t.cur == b && t.byHeight == s.byHeight[Height(b) := b] && t.inMain == s.inMain + {b}
    ensures IndexOk(t)
  {
  }

  /** A block that passes the checks leads from one boundary to the next. */
  lemma ApplySound(s: State, b: Block)
    requires SoundBoundary(s) && BlockOk(s, b)
    ensures SoundBoundary(ApplyBlock(s, b))
  {
    hide Sound, LiveFrom, PrepareBooks, FreshIds, IndexOk, TxsFit, InTime, HeaderOk, PrepareOk, IdMap, TopicIds,
         BlockBooks, BlockRewarded, Ids, AtHeight, NoDup, LogTopics, LogTxs;
    var h := Height(b);
    PrepareSound(s);
    AppliedBooks(NextBooks(s), b, h);
    IndexKept(s, b, ApplyBlock(s, b));
    FreshStep(b, h);
    IdMapStep(b, h);
  }

  lemma ApplyBoundary(s: State, b: Block)
    requires Boundary(s) && BlockOk(s, b)
    ensures Boundary(ApplyBlock(s, b))
  {
    ApplySound(s, b);
    PrepareInv(s);
    AppliedForum(s, b);
    hide SoundBoundary, NextBooks, ApplyBlock, BlockOk, Sound, Linked, TxsFit, ApplyTxs;
    TxsInv(NextBooks(s), b.txs, Height(b), true);
  }

  lemma AppliedForum(s: State, b: Block)
    requires BlockOk(s, b)
    ensures b.Block? && Height(b) == Height(s.cur) + 1 && TxsFit(NextBooks(s), b.txs, Height(b), true)
    ensures ApplyBlock(s, b).books.forum == ApplyTxs(NextBooks(s), b.txs, Height(b), true).forum
  {
    hide PrepareBooks, TxsFit, InTime, HeaderOk, PrepareOk, ApplyTxs;
  }

  lemma IdMapStep(b: Block, h: nat)
    requires b.Block? && h == Height(b)
    ensures IdMap(b, h - TOPIC_LIFE_TIME) == IdMap(b.parent, h - TOPIC_LIFE_TIME) + AtHeight(Ids(b.txs), h)
    ensures TopicIds(b, h - TOPIC_LIFE_TIME) == TopicIds(b.parent, h - TOPIC_LIFE_TIME) + Opened(b.txs)
  {
  }

  lemma AppliedBooks(p: Books, b: Block, h: nat)
    requires b.Block? && h == Height(b) && Sound(p, h) && LiveFrom(p.forum, Oldest(h))
    requires TxsFit(p, b.txs, h, true) && b.miner in p.reg.accounts
    ensures Sound(BlockBooks(p, b), h)
    ensures LiveFrom(BlockBooks(p, b).forum, Oldest(h))
    ensures BlockBooks(p, b).forum.queue == p.forum.queue + Opened(b.txs)
    ensures BlockBooks(p, b).txMap == p.txMap + AtHeight(Ids(b.txs), h)
    ensures NoDup(Ids(b.txs)) && forall k :: k in Ids(b.txs) ==> k !in p.txMap
  {
    hide Sound, LiveFrom, PayMiner, TxsFit, ApplyTxs;
    var x := ApplyTxs(p, b.txs, h, true);
    TxsSound(p, b.txs, h, true, Oldest(h));
    MinerHasBalance(p, b.txs, h, Oldest(h), b.miner);
    PayMinerKeys(x.bal, b.miner, |b.txs|);
    BalancesSound(x, h, PayMiner(x.bal, b.miner, |b.txs|));
  }

  lemma FreshStep(b: Block, h: nat)
    requires b.Block? && h == Height(b)
    requires NoDup(Ids(b.txs)) && FreshIds(b.parent, h - TOPIC_LIFE_TIME)
    requires forall k :: k in Ids(b.txs) ==> k !in IdMap(b.parent, h - TOPIC_LIFE_TIME)
    ensures FreshIds(b, h - TOPIC_LIFE_TIME)
  {
  }

  lemma InitialBoundary()
    ensures Boundary(INITIAL)
  {
    hide OwnedBy;
    var b := INITIAL.books;
    assert b.forum.queue == [];
    NotOwned([], AUTHOR);
    assert AccountOk(b, AUTHOR);
    assert JoinedListOk(b.forum, AUTHOR);
  }

  /** Every ledger that start can rebuild is in order: expiry is exact and cannot fail, and so on. */
  lemma {:induction false} ReplayBoundary(b: Block)
    requires Replay(b).Some?
    ensures Replay(b).value.cur == b
    ensures Boundary(Replay(b).value)
  {
    hide Boundary, BlockOk, ApplyBlock;
    if b.Genesis? {
      InitialBoundary();
    } else {
      ReplayBoundary(b.parent);
      ApplyBoundary(Replay(b.parent).value, b);
      AppliedCur(Replay(b.parent).value, b);
    }
  }

  lemma ParentOf(s: State, b: Block)
    requires BlockOk(s, b)
    ensures b.Block? && Height(b) == Height(s.cur) + 1
  {
  }

  lemma OnTop(s: State, b: Block)
    requires BlockOk(s, b)
    ensures b.Block? && b.parent == s.cur
  {
    hide TxsOk, PrepareOk, HeaderOk;
  }

  /** What the checks of a block come to where expiry and forgetting do not fail. */
  lemma BlockOkWhen(s: State, b: Block)
    requires b.Block? && b.parent == s.cur && PrepareOk(s, Height(b))
    ensures BlockOk(s, b) <==> HeaderOk(b) && |b.txs| <= MAX_TXS && b.miner in s.books.reg.accounts
                               && TxsOk(NextBooks(s), b.txs, Height(b))
  {
    hide TxsOk, PrepareBooks, HeaderOk, PrepareOk;
  }

  lemma AppliedCur(s: State, b: Block)
    requires b.Block?
    ensures ApplyBlock(s, b).cur == b
  {
  }

  ghost function LeavingAt(r: State): Forgotten
    requires Height(r.cur) + 1 >= TOPIC_LIFE_TIME + 2
  {
    Forgotten(UndoKey(Height(r.cur) + 1), Reversed(LeavingIds(r.byHeight, Height(r.cur) + 1)))
  }
}
