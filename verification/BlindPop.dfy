/** A run on which rollback leaves a wrong joined list: X joins topic O and then topic K; the block at which K
    expires is undone, which pushes K to the front, and then the block of the second reply, which takes O off the
    end. */
module BlindPop {
  import opened Lists
  import opened Chain
  import opened Books
  import opened Inverse
  import opened Expiry
  import opened Blocks
  import opened Replayed
  import opened Reorg
  import opened UndoLogs
  import opened Fidelity
  import opened Sim
  import opened Rollbacks
  import opened Cores
  import opened Membership
  import opened Runs
  import opened Selection
  import opened Reversible
  import opened Standing
  import opened Limbs
  import opened AccumPow

  const X: Pubkey := Pub("x")
  const REGISTER_X: Tx := Tx(X, 1, 2, "", TxReg(Name("xxxx"), AUTHOR, 1))
  const FUND_X: Tx := Tx(AUTHOR, 1, 2, "", TxSend(X, 100))
  const OPEN_K: Tx := Tx(AUTHOR, 1, 2, "k", TxTopic(1))
  const OPEN_O: Tx := Tx(AUTHOR, 2, 2, "o", TxTopic(1))
  const FIRST_REPLY: Tx := Tx(X, 2, 2, "r", TxReply(Hash(OPEN_O), None))
  const SECOND_REPLY: Tx := Tx(X, 3, 2, "s", TxReply(Hash(OPEN_K), None))

  const BLOCK_1: Block := Block(Genesis, AUTHOR, GENESIS_UTC + 10, 1, [REGISTER_X, FUND_X, OPEN_K])
  const BLOCK_2: Block := Block(BLOCK_1, AUTHOR, GENESIS_UTC + 20, 1, [OPEN_O, FIRST_REPLY])

  /** The block of the second reply, found at time `utc`. */
  function Block3(utc: nat): Block {
    Block(BLOCK_2, AUTHOR, utc, 1, [SECOND_REPLY])
  }

  /** `n` blocks without transactions, ten seconds apart, on top of block 3. */
  function Quiet(n: nat): Block {
    if n == 0 then Block3(GENESIS_UTC + 30) else Block(Quiet(n - 1), AUTHOR, GENESIS_UTC + 30 + 10 * n, 1, [])
  }

  const TOPIC_K: Topic := Topic(AUTHOR, 1, 1, 1, [], [])
  const TOPIC_O: Topic :=
    Topic(AUTHOR, 2, 1, 1, [Reply(Hash(FIRST_REPLY), false, X, None, 0)], [Member(Hash(FIRST_REPLY), X)])
  const JOINED_K: Topic :=
    Topic(AUTHOR, 1, 1, 1, [Reply(Hash(SECOND_REPLY), false, X, None, 0)], [Member(Hash(SECOND_REPLY), X)])

  const FORUM_0: Forum := Forum(map[], [], map[AUTHOR := [], X := []], map[AUTHOR := [], X := []])

  const FORUM_1: Forum :=
    Forum(map[Hash(OPEN_K) := TOPIC_K], [Hash(OPEN_K)],
          map[AUTHOR := [Hash(OPEN_K)], X := []],
          map[AUTHOR := [], X := []])

  const FORUM_2: Forum :=
    Forum(map[Hash(OPEN_K) := TOPIC_K, Hash(OPEN_O) := TOPIC_O],
          [Hash(OPEN_K), Hash(OPEN_O)],
          map[AUTHOR := [Hash(OPEN_K), Hash(OPEN_O)], X := []],
          map[AUTHOR := [], X := [Hash(OPEN_O)]])

  const FORUM_3: Forum :=
    Forum(map[Hash(OPEN_K) := JOINED_K, Hash(OPEN_O) := TOPIC_O],
          [Hash(OPEN_K), Hash(OPEN_O)],
          map[AUTHOR := [Hash(OPEN_K), Hash(OPEN_O)], X := []],
          map[AUTHOR := [], X := [Hash(OPEN_O), Hash(OPEN_K)]])

  // ---- Transactions of the author and of X

  /** X and the author are registered and have coins to spend. */
  ghost predicate Funds(b: Books, author: int, x: int) {
    && AUTHOR in b.reg.accounts && b.reg.accounts[AUTHOR].referrer.None? && b.reg.accounts[AUTHOR].id == 1
    && X in b.reg.accounts && b.reg.accounts[X].referrer == Some(AUTHOR)
    && RESERVE in b.bal && AUTHOR in b.bal && X in b.bal
    && b.bal[RESERVE] >= 0 && b.bal[AUTHOR] >= author && b.bal[X] >= x
  }

  lemma Opens(b: Books, tx: Tx, h: nat, author: int, x: int)
    requires Funds(b, author, x) && author >= 3
    requires tx.pubkey == AUTHOR && tx.body == TxTopic(1) && Hash(tx) !in b.txMap && Hash(tx) !in b.forum.topics
    requires |ListAt(b.forum.owned, AUTHOR)| < 100
    ensures TxOk(b, tx) && Funds(ApplyTx(b, tx, h, true), author - 3, x)
  {
  }

  lemma Replies(b: Books, tx: Tx, h: nat, author: int, x: int)
    requires Funds(b, author, x) && x >= 2
    requires tx.pubkey == X && tx.body.TxReply? && tx.body.replyTo.None? && Hash(tx) !in b.txMap
    requires tx.body.topicKey in b.forum.topics && |b.forum.topics[tx.body.topicKey].replies| < 1000
    requires |ListAt(b.forum.joined, X)| < 100
    ensures TxOk(b, tx) && Funds(ApplyTx(b, tx, h, true), author, x - 2)
  {
  }

  /** X registers, which the author pays for, and gets coins from the author. */
  lemma Arrives()
    ensures var c := ApplyTxs(INITIAL.books, [REGISTER_X, FUND_X], 1, true);
            && TxsFit(INITIAL.books, [REGISTER_X, FUND_X], 1, true)
            && Funds(c, 1000, 100)
            && c.forum == FORUM_0
            && c.txMap.Keys == {Hash(REGISTER_X), Hash(FUND_X)}
  {
    NotAuthor();
    var b := INITIAL.books;
    assert b.bal == map[RESERVE := TOTAL / 2, AUTHOR := TOTAL / 2];
    assert TxsFit(b, [], 1, true) && ApplyTxs(b, [], 1, true) == b;
    TxsAppend(b, [], REGISTER_X, 1, true);
    TxsAppend(b, [REGISTER_X], FUND_X, 1, true);
    assert [] + [REGISTER_X] == [REGISTER_X] && [REGISTER_X] + [FUND_X] == [REGISTER_X, FUND_X];
    Registers(b);
    hide INITIAL, TxsFit, ApplyTxs, ApplyTx, TxOk;
    Funded(ApplyTx(b, REGISTER_X, 1, true));
  }

  lemma NotAuthor()
    ensures AUTHOR.Pub? && X != AUTHOR && X != RESERVE && RESERVE != AUTHOR && Name("xxxx") != AUTHOR_NAME
    ensures Name("xxxx") != RESERVE_NAME
  {
    assert |X.base64| != |AUTHOR.base64|;
    assert |AUTHOR_NAME.base64| != 4 && |RESERVE_NAME.base64| != 4;
  }

  lemma Registers(b: Books)
    requires b == INITIAL.books
    ensures TxOk(b, REGISTER_X)
    ensures var c := ApplyTx(b, REGISTER_X, 1, true);
            && Funds(c, 2000, 0)
            && c.forum == FORUM_0
            && c.txMap.Keys == {Hash(REGISTER_X)}
  {
    NotAuthor();
    hide AUTHOR, AUTHOR_NAME, RESERVE_NAME;
  }

  lemma Funded(b: Books)
    requires Funds(b, 2000, 0) && b.txMap.Keys == {Hash(REGISTER_X)}
    requires b.forum == FORUM_0
    ensures TxOk(b, FUND_X)
    ensures var c := ApplyTx(b, FUND_X, 1, true);
            Funds(c, 1000, 100) && c.forum == b.forum && c.txMap.Keys == {Hash(REGISTER_X), Hash(FUND_X)}
  {
    NotAuthor();
    hide AUTHOR;
  }

  // ---- The blocks

  lemma MinerPaid(b: Books, n: nat, author: int, x: int)
    requires Funds(b, author, x)
    ensures Funds(b.(bal := PayMiner(b.bal, AUTHOR, n)), author, x)
  {
    NotAuthor();
    hide AUTHOR;
  }

  /** A block of such transactions is accepted. */
  lemma AddOn(s: State, b: Block, author: int, x: int)
    requires SoundBoundary(s) && b.Block? && b.parent == s.cur
    requires HeaderOk(b) && b.miner == AUTHOR && |b.txs| <= MAX_TXS && Height(b) < TOPIC_LIFE_TIME + 2
    requires AUTHOR in s.books.reg.accounts && TxsOk(s.books, b.txs, Height(b))
    requires Funds(ApplyTxs(s.books, b.txs, Height(b), true), author, x)
    ensures BlockOk(s, b) && SoundBoundary(ApplyBlock(s, b)) && ApplyBlock(s, b).cur == b
    ensures var c, d := ApplyTxs(s.books, b.txs, Height(b), true), ApplyBlock(s, b).books;
            Funds(d, author, x) && d.forum == c.forum && d.txMap == c.txMap && d.reg == c.reg
  {
    hide SoundBoundary, NextBooks, BlockOk, PrepareOk, HeaderOk, TxsOk, ApplyTxs, Funds, AUTHOR, PayMiner, ApplyBlock;
    PrepareSound(s);
    EarlyBooks(s);
    BlockOkWhen(s, b);
    AppliedBooksAre(s, b);
    MinerPaid(ApplyTxs(s.books, b.txs, Height(b), true), |b.txs|, author, x);
    ApplySound(s, b);
    AppliedCur(s, b);
  }

  /** So is it by start. */
  lemma AddBlock(b: Block, author: int, x: int)
    requires b.Block? && Replay(b.parent).Some? && HeaderOk(b) && b.miner == AUTHOR && |b.txs| <= MAX_TXS
    requires Height(b) < TOPIC_LIFE_TIME + 2
    requires AUTHOR in Replay(b.parent).value.books.reg.accounts
    requires TxsOk(Replay(b.parent).value.books, b.txs, Height(b))
    requires Funds(ApplyTxs(Replay(b.parent).value.books, b.txs, Height(b), true), author, x)
    ensures Replay(b).Some?
    ensures var c, d := ApplyTxs(Replay(b.parent).value.books, b.txs, Height(b), true), Replay(b).value.books;
            Funds(d, author, x) && d.forum == c.forum && d.txMap == c.txMap && d.reg == c.reg
  {
    hide SoundBoundary, Linked, BlockOk, HeaderOk, TxsOk, ApplyTxs, Funds, AUTHOR, ApplyBlock, Replay;
    ReplayBoundary(b.parent);
    ReplayNext(b);
    AddOn(Replay(b.parent).value, b, author, x);
  }

  lemma FirstTxs()
    ensures var b, c := INITIAL.books, ApplyTxs(INITIAL.books, BLOCK_1.txs, 1, true);
            && TxsOk(b, BLOCK_1.txs, 1) && Funds(c, 900, 100) && c.forum == FORUM_1
            && c.txMap.Keys == {Hash(REGISTER_X), Hash(FUND_X), Hash(OPEN_K)}
  {
    hide INITIAL, TxsFit, ApplyTxs, AUTHOR, TxOk, Funds, ApplyForum, ApplyMoney, FORUM_0;
    NotAuthor();
    var b := INITIAL.books;
    var txs := [REGISTER_X, FUND_X];
    var c := ApplyTxs(b, txs, 1, true);
    Arrives();
    NothingOpen(c);
    Opens(c, OPEN_K, 1, 1000, 100);
    LessFunds(ApplyTx(c, OPEN_K, 1, true), 997, 100, 900, 100);
    TxsAppend(b, txs, OPEN_K, 1, true);
    assert txs + [OPEN_K] == BLOCK_1.txs;
  }

  lemma LessFunds(b: Books, author: int, x: int, a: int, y: int)
    requires Funds(b, author, x) && a <= author && y <= x
    ensures Funds(b, a, y)
  {
  }

  lemma NothingOpen(c: Books)
    requires c.forum == FORUM_0
    ensures Hash(OPEN_K) !in c.forum.topics && |ListAt(c.forum.owned, AUTHOR)| < 100
    ensures ApplyForum(c.forum, OPEN_K, 1) == FORUM_1
  {
    NotAuthor();
    hide AUTHOR;
    var f := ApplyForum(c.forum, OPEN_K, 1);
    assert [] + [Hash(OPEN_K)] == [Hash(OPEN_K)];
    assert f.owned == FORUM_1.owned;
  }

  lemma FirstBlock()
    ensures Replay(BLOCK_1).Some?
    ensures var b := Replay(BLOCK_1).value.books;
            && Funds(b, 900, 100) && b.forum == FORUM_1
            && b.txMap.Keys == {Hash(REGISTER_X), Hash(FUND_X), Hash(OPEN_K)}
  {
    GenesisIs();
    Heights();
    FirstTxs();
    hide INITIAL, TxsOk, ApplyTxs, Replay, AUTHOR, Funds, FORUM_1;
    AddBlock(BLOCK_1, 900, 100);
  }

  lemma Heights()
    ensures Height(BLOCK_1) == 1 && HeaderOk(BLOCK_1) && BLOCK_1.parent == Genesis
    ensures Height(BLOCK_2) == 2 && HeaderOk(BLOCK_2) && BLOCK_2.parent == BLOCK_1
  {
    assert Height(BLOCK_1) == 1 && Utc(BLOCK_1) == GENESIS_UTC + 10 && ZeroBits(BLOCK_1) == 1;
  }

  lemma FundsRegistered(b: Books, author: int, x: int)
    requires Funds(b, author, x)
    ensures AUTHOR in b.reg.accounts
  {
  }

  lemma GenesisIs()
    ensures Replay(Genesis) == Some(INITIAL) && AUTHOR in INITIAL.books.reg.accounts
  {
  }

  lemma NoTxs(b: Books, h: nat)
    ensures TxsFit(b, [], h, true) && TxsOk(b, [], h) && ApplyTxs(b, [], h, true) == b
  {
  }

  lemma SecondTxs(b: Books)
    requires Funds(b, 900, 100) && b.forum == FORUM_1
    requires b.txMap.Keys == {Hash(REGISTER_X), Hash(FUND_X), Hash(OPEN_K)}
    ensures var c := ApplyTxs(b, BLOCK_2.txs, 2, true);
            && TxsOk(b, BLOCK_2.txs, 2) && Funds(c, 800, 98) && c.forum == FORUM_2
            && c.txMap.Keys == b.txMap.Keys + {Hash(OPEN_O), Hash(FIRST_REPLY)}
  {
    hide TxsFit, ApplyTxs, AUTHOR, TxOk, Funds, ApplyForum, ApplyMoney, FORUM_1, FORUM_O, FORUM_2;
    var o := ApplyTx(b, OPEN_O, 2, true);
    OpensSecond(b);
    RepliesFirst();
    NoTxs(b, 2);
    NotAuthor();
    Opens(b, OPEN_O, 2, 900, 100);
    Replies(o, FIRST_REPLY, 2, 897, 100);
    LessFunds(ApplyTx(o, FIRST_REPLY, 2, true), 897, 98, 800, 98);
    TxsAppend(b, [], OPEN_O, 2, true);
    TxsAppend(b, [OPEN_O], FIRST_REPLY, 2, true);
    assert [] + [OPEN_O] == [OPEN_O] && [OPEN_O] + [FIRST_REPLY] == BLOCK_2.txs;
  }

  /** Topic O before its reply. */
  const FORUM_O: Forum :=
    Forum(map[Hash(OPEN_K) := TOPIC_K, Hash(OPEN_O) := Topic(AUTHOR, 2, 1, 1, [], [])],
          [Hash(OPEN_K), Hash(OPEN_O)],
          map[AUTHOR := [Hash(OPEN_K), Hash(OPEN_O)], X := []],
          map[AUTHOR := [], X := []])

  lemma OpensSecond(b: Books)
    requires b.forum == FORUM_1
    ensures Hash(OPEN_O) !in b.forum.topics && |ListAt(b.forum.owned, AUTHOR)| < 100
    ensures ApplyForum(b.forum, OPEN_O, 2) == FORUM_O
  {
    NotAuthor();
    hide AUTHOR;
    var f := ApplyForum(b.forum, OPEN_O, 2);
    assert [Hash(OPEN_K)] + [Hash(OPEN_O)] == [Hash(OPEN_K), Hash(OPEN_O)];
    assert f.owned == FORUM_O.owned;
  }

  lemma RepliesFirst()
    ensures Hash(OPEN_O) in FORUM_O.topics && |FORUM_O.topics[Hash(OPEN_O)].replies| < 1000
    ensures |ListAt(FORUM_O.joined, X)| < 100
    ensures ApplyForum(FORUM_O, FIRST_REPLY, 2) == FORUM_2
  {
    NotAuthor();
    hide AUTHOR;
    var f := FORUM_O;
    var t := f.topics[Hash(OPEN_O)];
    assert Joins(f, FIRST_REPLY);
    assert AddReply(AddMember(t, Hash(FIRST_REPLY), X), Reply(Hash(FIRST_REPLY), false, X, None, 0)) == TOPIC_O;
    assert [] + [Hash(OPEN_O)] == [Hash(OPEN_O)];
    var g := ApplyForum(f, FIRST_REPLY, 2);
    assert g.topics == FORUM_2.topics;
    assert g.joined == FORUM_2.joined;
  }

  lemma SecondBlock()
    ensures Replay(BLOCK_2).Some?
    ensures var b := Replay(BLOCK_2).value.books;
            && Funds(b, 800, 98) && b.forum == FORUM_2 && Hash(SECOND_REPLY) !in b.txMap
  {
    hide TxsOk, ApplyTxs, Replay, AUTHOR, FORUM_1, FORUM_2, Funds;
    FirstBlock();
    Heights();
    FundsRegistered(Replay(BLOCK_1).value.books, 900, 100);
    SecondTxs(Replay(BLOCK_1).value.books);
    AddBlock(BLOCK_2, 800, 98);
  }

  lemma ThirdTxs(b: Books)
    requires Funds(b, 800, 98) && b.forum == FORUM_2 && Hash(SECOND_REPLY) !in b.txMap
    ensures var c := ApplyTxs(b, [SECOND_REPLY], 3, true);
            TxsOk(b, [SECOND_REPLY], 3) && Funds(c, 800, 96) && c.forum == FORUM_3
    ensures JoinsOf(b, [SECOND_REPLY], 3, true, X) == [Hash(OPEN_K)]
  {
    hide TxsFit, ApplyTxs, AUTHOR, TxOk, Funds, ApplyForum, ApplyMoney, FORUM_2, FORUM_3, Joins, JoinsOf;
    var txs := [SECOND_REPLY];
    assert txs[..0] == [] && [] + txs == txs;
    RepliesSecond();
    NoTxs(b, 3);
    NotAuthor();
    Replies(b, SECOND_REPLY, 3, 800, 98);
    TxsAppend(b, [], SECOND_REPLY, 3, true);
    JoinsOfOne(b, SECOND_REPLY, 3);
  }

  lemma JoinsOfOne(b: Books, tx: Tx, h: nat)
    ensures JoinsOf(b, [tx], h, true, X) == JoinOf(b.forum, tx, X)
  {
    hide JoinOf;
    assert [tx][..0] == [] && JoinsOf(b, [], h, true, X) == [];
    NoTxs(b, h);
    assert [] + JoinOf(b.forum, tx, X) == JoinOf(b.forum, tx, X);
  }

  lemma RepliesSecond()
    ensures Hash(OPEN_K) in FORUM_2.topics && |FORUM_2.topics[Hash(OPEN_K)].replies| < 1000
    ensures |ListAt(FORUM_2.joined, X)| < 100
    ensures Joins(FORUM_2, SECOND_REPLY) && ApplyForum(FORUM_2, SECOND_REPLY, 3) == FORUM_3
  {
    NotAuthor();
    hide AUTHOR;
    var f := FORUM_2;
    var t := f.topics[Hash(OPEN_K)];
    assert Joins(f, SECOND_REPLY);
    assert AddReply(AddMember(t, Hash(SECOND_REPLY), X), Reply(Hash(SECOND_REPLY), false, X, None, 0)) == JOINED_K;
    assert [Hash(OPEN_O)] + [Hash(OPEN_K)] == [Hash(OPEN_O), Hash(OPEN_K)];
    var g := ApplyForum(f, SECOND_REPLY, 3);
    assert g.topics == FORUM_3.topics;
    assert g.joined == FORUM_3.joined;
  }

  lemma ThirdBlock(utc: nat)
    requires utc >= GENESIS_UTC + 20
    ensures Replay(Block3(utc)).Some?
    ensures var b := Replay(Block3(utc)).value.books; Funds(b, 800, 96) && b.forum == FORUM_3
    ensures BlockJoins(Block3(utc), X) == [Hash(OPEN_K)]
  {
    hide TxsOk, ApplyTxs, Replay, AUTHOR, FORUM_2, FORUM_3, Funds, JoinsOf;
    SecondBlock();
    Heights();
    ThirdHeader(utc);
    var b := Replay(BLOCK_2).value.books;
    FundsRegistered(b, 800, 98);
    ThirdTxs(b);
    AddBlock(Block3(utc), 800, 96);
    ReplayBoundary(BLOCK_2);
    EarlyBooks(Replay(BLOCK_2).value);
  }

  lemma ThirdHeader(utc: nat)
    requires utc >= GENESIS_UTC + 20
    ensures var b := Block3(utc);
            && b.Block? && Height(b) == 3 && HeaderOk(b)
            && b.parent == BLOCK_2 && b.txs == [SECOND_REPLY] && b.miner == AUTHOR
  {
    Heights();
    assert Utc(BLOCK_2) == GENESIS_UTC + 20 && UtcDiff(BLOCK_2) == 10 && ZeroBits(BLOCK_2) == 1;
  }

  lemma {:induction false} QuietHeader(n: nat)
    ensures Height(Quiet(n)) == n + 3 && Utc(Quiet(n)) == GENESIS_UTC + 30 + 10 * n
    ensures UtcDiff(Quiet(n)) == 10 && HeaderOk(Quiet(n)) && IsAncestor(BLOCK_2, Quiet(n))
  {
    if n == 0 {
      ThirdHeader(GENESIS_UTC + 30);
      assert Utc(BLOCK_2) == GENESIS_UTC + 20;
    } else {
      QuietHeader(n - 1);
    }
  }

  /** Until K expires nothing happens to the topics. */
  lemma {:induction false} QuietBlock(n: nat)
    requires n + 3 < TOPIC_LIFE_TIME + 2
    ensures Replay(Quiet(n)).Some?
    ensures var b := Replay(Quiet(n)).value.books; Funds(b, 800, 96) && b.forum == FORUM_3
    ensures IsAncestor(BLOCK_2, Quiet(n)) && PathPushed(Quiet(n), BLOCK_2, X) == []
    ensures PathJoins(Quiet(n), BLOCK_2, X) == [Hash(OPEN_K)]
  {
    hide Replay, AUTHOR, FORUM_3, Funds, HeaderOk, Pushed, BLOCK_2;
    QuietHeader(n);
    if n == 0 {
      ThirdBlock(GENESIS_UTC + 30);
      ThirdHeader(GENESIS_UTC + 30);
      assert BLOCK_2 != Block3(GENESIS_UTC + 30) by { Heights(); }
      assert PathJoins(BLOCK_2, BLOCK_2, X) == [] && PathPushed(BLOCK_2, BLOCK_2, X) == [];
    } else {
      QuietBlock(n - 1);
      var s := Replay(Quiet(n - 1)).value;
      FundsRegistered(s.books, 800, 96);
      NoTxs(s.books, Height(Quiet(n)));
      AddBlock(Quiet(n), 800, 96);
      assert BLOCK_2 != Quiet(n) by { Heights(); }
      NoJoins(n);
    }
  }

  lemma NoJoins(n: nat)
    requires n > 0
    ensures BlockJoins(Quiet(n), X) == []
  {
    hide Replay, NextBooks;
  }

  // ---- Topic K expires

  const LAST: nat := TOPIC_LIFE_TIME - 1

  lemma Expires()
    ensures ExpiredLog(FORUM_3, TOPIC_LIFE_TIME + 2) == [Expired(Hash(OPEN_K), JOINED_K)]
    ensures var f := Expire(FORUM_3, TOPIC_LIFE_TIME + 2); X in f.joined && f.joined[X] == [Hash(OPEN_O)]
    ensures Pushed(ExpiredLog(FORUM_3, TOPIC_LIFE_TIME + 2), X) == [Hash(OPEN_K)]
  {
    NotAuthor();
    hide AUTHOR;
    var h := TOPIC_LIFE_TIME + 2;
    var k, o := Hash(OPEN_K), Hash(OPEN_O);
    var g := ExpireFront(FORUM_3);
    assert JOINED_K.members[0].who == X;
    EraseAt([o, k], 1, k);
    assert [o, k][..1] + [o, k][2..] == [o];
    assert g.joined[X] == [o] && g.queue == [o] && g.topics[o] == TOPIC_O;
    ExpireUnfold(FORUM_3, h);
    NothingExpires(g, h);
    var log := [Expired(k, JOINED_K)];
    assert [] + log == log;
    assert log[1..] == [] && Pushed([], X) == [];
  }

  lemma LastBlock()
    ensures Replay(Quiet(LAST)).Some?
    ensures var f := Replay(Quiet(LAST)).value.books.forum; X in f.joined && f.joined[X] == [Hash(OPEN_O)]
    ensures BlockPushed(Quiet(LAST), X) == [Hash(OPEN_K)]
  {
    hide Replay, AUTHOR, FORUM_3, Funds, HeaderOk, Pushed, Expire, ExpiredLog, SoundBoundary, Linked, NextBooks,
         BlockOk, PrepareOk, TxsOk, ApplyTxs;
    QuietHeader(LAST);
    QuietHeader(LAST - 1);
    QuietBlock(LAST - 1);
    var b := Quiet(LAST);
    var s := Replay(b.parent).value;
    FundsRegistered(s.books, 800, 96);
    ReplayBoundary(b.parent);
    PrepareSound(s);
    NoTxs(NextBooks(s), Height(b));
    BlockOkWhen(s, b);
    ReplayNext(b);
    AppliedForum(s, b);
    PreparedForum(s);
    Expires();
  }

  /** The run up to here is followed by a rollback of the blocks above block 2. X is left with K as the topic it has
      joined; a replay of block 2 has O. */
  lemma WrongJoinedList()
    ensures Replay(Quiet(LAST)).Some? && RunsTo(INITIAL, MineAll(Quiet(LAST)), Replay(Quiet(LAST)).value)
    ensures Retains(Replay(Quiet(LAST)).value, 2)
    ensures var w := Rollback(Replay(Quiet(LAST)).value, 2);
            && w.cur == BLOCK_2 && Tracks(w, LAST + 3)
            && X in w.books.forum.joined && w.books.forum.joined[X] == [Hash(OPEN_K)]
    ensures Replay(BLOCK_2).Some?
    ensures var r := Replay(BLOCK_2).value; X in r.books.forum.joined && r.books.forum.joined[X] == [Hash(OPEN_O)]
    ensures multiset([Hash(OPEN_K)]) != multiset([Hash(OPEN_O)])
    ensures IsAncestor(BLOCK_2, Quiet(LAST)) && !JoinedBack(Replay(Quiet(LAST)).value, BLOCK_2)
  {
    hide Faithful, Replay, AUTHOR, RunsTo, INITIAL, Rollback, PathPushed, PathJoins, Tracks, FORUM_3, Funds,
         BlockPushed, BlockJoins, Retains, Steady, BackFor;
    LastBlock();
    var b := Quiet(LAST);
    var s := Replay(b).value;
    QuietHeader(LAST);
    Heights();
    ReplayIsRun(b);
    ReplayFaithful(b);
    FaithfulHere(s, LAST + 3);
    TracksSteady(s, LAST + 3);
    SteadyRetained(s, LAST + 3, 2);
    SecondBlock();
    RollbackTracks(s, BLOCK_2, LAST + 3);
    LastPath();
    var k, o := Hash(OPEN_K), Hash(OPEN_O);
    assert ([k] + [o])[..1] == [k];
    assert multiset([k])[k] == 1 && multiset([o])[k] == 0;
    JoinedAndPushedBack([o], b, BLOCK_2, X, k);
  }

  lemma SteadyRetained(s: State, top: nat, n: nat)
    requires Steady(s, top) && n <= Height(s.cur) && InReach(n, top)
    ensures Retains(s, n)
  {
    hide Core, FitState, Retains;
    RetainsIff(s, top, n);
  }

  lemma LastPath()
    ensures IsAncestor(BLOCK_2, Quiet(LAST))
    ensures PathPushed(Quiet(LAST), BLOCK_2, X) == [Hash(OPEN_K)]
    ensures PathJoins(Quiet(LAST), BLOCK_2, X) == [Hash(OPEN_K)]
  {
    hide Replay, AUTHOR, FORUM_3, Funds, HeaderOk, Pushed, BLOCK_2, BlockPushed, BlockJoins;
    QuietHeader(LAST);
    QuietBlock(LAST - 1);
    LastBlock();
    NoJoins(LAST);
    assert BLOCK_2 != Quiet(LAST) by { Heights(); }
  }

  // ---- What follows from it

  /** A branch of blocks without transactions, found within one second on top of the second reply. */
  function Fast(n: nat): Block {
    if n == 0 then Block3(GENESIS_UTC + 31) else Block(Fast(n - 1), AUTHOR, GENESIS_UTC + 31, n, [])
  }

  const HEAVY: nat := 13

  lemma {:induction false} FastHeader(n: nat)
    requires n < 256
    ensures Height(Fast(n)) == n + 3 && Utc(Fast(n)) == GENESIS_UTC + 31 && IsAncestor(BLOCK_2, Fast(n))
    ensures UtcDiff(Fast(n)) == (if n == 0 then 11 else 0) && ZeroBits(Fast(n)) == (if n == 0 then 1 else n)
    ensures HeaderOk(Fast(n))
  {
    if n == 0 {
      ThirdHeader(GENESIS_UTC + 31);
      assert Utc(BLOCK_2) == GENESIS_UTC + 20;
    } else {
      FastHeader(n - 1);
    }
  }

  /** Its work doubles with every block. */
  lemma {:induction false} FastWork(n: nat)
    ensures Work(Fast(n)) == 4 + Pow2(n + 1)
  {
    if n == 0 {
      SecondWork();
    } else {
      FastWork(n - 1);
    }
  }

  lemma {:induction false} QuietWork(n: nat)
    ensures Work(Quiet(n)) == 6 + 2 * n
  {
    assert Pow2(1) == 2;
    if n == 0 {
      SecondWork();
    } else {
      QuietWork(n - 1);
    }
  }

  lemma SecondWork()
    ensures Work(BLOCK_2) == 4 && Pow2(1) == 2
  {
    assert Pow2(1) == 2;
    assert Work(BLOCK_1) == 2;
  }

  /** So the node switches to it. */
  lemma Heavier()
    ensures Work(Fast(HEAVY)) == 16388 && Work(Quiet(LAST)) == 8644
  {
    FastWork(HEAVY);
    QuietWork(LAST);
    Pow2By8(6);
    assert Pow2(3) == 8 && Pow2(6) == 64;
  }

  lemma {:induction false} NotOnQuiet(k: nat, m: nat)
    requires k < 256
    ensures !IsAncestor(Fast(k), Quiet(m))
  {
    FastHeader(k);
    QuietHeader(m);
    if m == 0 {
      AboveSecond(Fast(k));
    } else {
      NotOnQuiet(k, m - 1);
    }
  }

  lemma AboveSecond(b: Block)
    requires Height(b) >= 3
    ensures !IsAncestor(b, BLOCK_2)
  {
    Heights();
    if IsAncestor(b, BLOCK_2) {
      AncestorHeight(b, BLOCK_2);
    }
  }

  lemma {:induction false} MeetAtSecond(c: Block, n: nat, m: nat)
    requires n < 256 && IsAncestor(c, Fast(n)) && IsAncestor(c, Quiet(m))
    ensures IsAncestor(c, BLOCK_2)
  {
    NotOnQuiet(n, m);
    if n > 0 {
      MeetAtSecond(c, n - 1, m);
    }
  }

  lemma ForkAtSecond(n: nat, m: nat)
    requires n < 256
    ensures IsFork(BLOCK_2, Quiet(m), Fast(n))
  {
    QuietHeader(m);
    FastHeader(n);
    forall c | IsAncestor(c, Quiet(m)) && IsAncestor(c, Fast(n)) ensures IsAncestor(c, BLOCK_2) {
      MeetAtSecond(c, n, m);
    }
  }

  /** Topic K belongs to the author and has nobody as a member. */
  ghost predicate Unjoined(f: Forum) {
    Hash(OPEN_K) in f.topics && f.topics[Hash(OPEN_K)].owner == AUTHOR && f.topics[Hash(OPEN_K)].members == []
  }

  /** X replies to K on books whose joined list has K although X is no member. */
  lemma NotJoinedTxs(b: Books)
    requires Funds(b, 800, 98) && Hash(SECOND_REPLY) !in b.txMap && b.forum.topics == FORUM_2.topics
    requires X in b.forum.joined && b.forum.joined[X] == [Hash(OPEN_K)]
    ensures TxsOk(b, [SECOND_REPLY], 3)
    ensures var c := ApplyTxs(b, [SECOND_REPLY], 3, true); Funds(c, 800, 96) && Unjoined(c.forum)
  {
    hide TxsFit, ApplyTxs, Funds, AUTHOR, TxOk, ApplyForum, ApplyMoney, FORUM_2, Unjoined;
    NoTxs(b, 3);
    NotJoinedReply(b.forum);
    NotAuthor();
    assert [] + [SECOND_REPLY] == [SECOND_REPLY];
    Replies(b, SECOND_REPLY, 3, 800, 98);
    TxsAppend(b, [], SECOND_REPLY, 3, true);
  }

  lemma NotJoinedReply(f: Forum)
    requires f.topics == FORUM_2.topics && X in f.joined && f.joined[X] == [Hash(OPEN_K)]
    ensures Hash(OPEN_K) in f.topics && |f.topics[Hash(OPEN_K)].replies| < 1000
    ensures Unjoined(ApplyForum(f, SECOND_REPLY, 3))
  {
    hide AUTHOR;
    assert !Joins(f, SECOND_REPLY);
  }

  lemma SameFunds(b: Books, d: Books, author: int, x: int)
    requires Funds(b, author, x) && b.reg == d.reg && b.bal == d.bal
    ensures Funds(d, author, x)
  {
  }

  /** The branch is connected on a ledger whose joined list has K although X is no member. */
  lemma {:induction false} NotJoined(w: State, n: nat)
    requires SoundBoundary(w) && w.cur == BLOCK_2 && n < 256
    requires Funds(w.books, 800, 98) && Hash(SECOND_REPLY) !in w.books.txMap
    requires w.books.forum.topics == FORUM_2.topics
    requires X in w.books.forum.joined && w.books.forum.joined[X] == [Hash(OPEN_K)]
    ensures IsAncestor(BLOCK_2, Fast(n)) && ApplyBlocks(w, PathFrom(BLOCK_2, Fast(n))).Some?
    ensures var u := ApplyBlocks(w, PathFrom(BLOCK_2, Fast(n))).value;
            u.cur == Fast(n) && SoundBoundary(u) && Funds(u.books, 800, 96) && Unjoined(u.books.forum)
  {
    hide SoundBoundary, BlockOk, ApplyBlock, HeaderOk, TxsOk, ApplyTxs, Funds, AUTHOR, FORUM_2, Unjoined;
    FastHeader(n);
    var b := Fast(n);
    if n == 0 {
      FundsRegistered(w.books, 800, 98);
      NotJoinedTxs(w.books);
      AddOn(w, b, 800, 96);
      OneBlock(w, b);
    } else {
      NotJoined(w, n - 1);
      FastHeader(n - 1);
      AboveSecond(b);
      var path := PathFrom(BLOCK_2, Fast(n - 1));
      var u := ApplyBlocks(w, path).value;
      FundsRegistered(u.books, 800, 96);
      NoTxs(u.books, Height(b));
      AddOn(u, b, 800, 96);
      assert PathFrom(BLOCK_2, b)[..|path|] == path;
    }
  }

  lemma {:induction false} FastReplay(n: nat)
    requires n < 256
    ensures Replay(Fast(n)).Some?
    ensures var b := Replay(Fast(n)).value.books; Funds(b, 800, 96) && b.forum == FORUM_3
  {
    hide Replay, AUTHOR, FORUM_3, Funds, HeaderOk, BLOCK_2;
    FastHeader(n);
    if n == 0 {
      ThirdBlock(GENESIS_UTC + 31);
    } else {
      FastReplay(n - 1);
      var s := Replay(Fast(n - 1)).value;
      FundsRegistered(s.books, 800, 96);
      NoTxs(s.books, Height(Fast(n)));
      AddBlock(Fast(n), 800, 96);
    }
  }

  /** The run goes on with a switch to that heavier branch. Its second reply no longer makes X a member of K, because K
      already is in its joined list; start, replaying the same branch, makes it one. And the way back is undefined. */
  lemma WrongMembers() returns (t: State)
    ensures IsFork(BLOCK_2, Quiet(LAST), Fast(HEAVY)) && Work(Fast(HEAVY)) > Work(Quiet(LAST))
    ensures RunsTo(INITIAL, MineAll(Quiet(LAST)) + [SwitchTo(BLOCK_2, Fast(HEAVY))], t) && t.cur == Fast(HEAVY)
    ensures Hash(OPEN_K) in t.books.forum.topics && !IsMember(t.books.forum.topics[Hash(OPEN_K)], X)
    ensures Replay(Fast(HEAVY)).Some?
    ensures var r := Replay(Fast(HEAVY)).value;
            Hash(OPEN_K) in r.books.forum.topics && IsMember(r.books.forum.topics[Hash(OPEN_K)], X)
    ensures Retains(t, 2) && !RollbackDefined(t, 2)
  {
    hide Replay, RunsTo, Rollback, Tracks, Funds, Retains, BlockOk, ApplyBlock, FORUM_2, FORUM_3, HeaderOk, IsMember,
         SoundBoundary, ApplyBlocks, Linked, AUTHOR, INITIAL, RollbackDefined, JoinedBack, Unjoined, Steady, Fast,
         Quiet, Work, MineAll, Height, BLOCK_2, Faithful;
    WrongJoinedList();
    Heights();
    var s := Replay(Quiet(LAST)).value;
    var w := Rollback(s, 2);
    ForkAtSecond(HEAVY, LAST);
    Heavier();
    FastReplay(HEAVY);
    JoinedInReplay();
    SecondBlock();
    TracksMeans(w, LAST + 3);
    TracksBoundary(w, LAST + 3);
    SameFunds(Replay(BLOCK_2).value.books, w.books, 800, 98);
    NotJoined(w, HEAVY);
    t := Switched(s, BLOCK_2, PathFrom(BLOCK_2, Fast(HEAVY))).value;
    ReplayFaithful(Quiet(LAST));
    RunsAppend(INITIAL, MineAll(Quiet(LAST)), s, SwitchTo(BLOCK_2, Fast(HEAVY)));
    NobodyThere(t.books.forum);
    FastHeader(HEAVY);
    EarlyRetains(t, 2);
    EmptyPop(t, HEAVY);
  }

  lemma EarlyRetains(s: State, n: nat)
    requires Height(s.cur) < TOPIC_LIFE_TIME + 2
    ensures Retains(s, n)
  {
  }

  lemma NobodyThere(f: Forum)
    requires Unjoined(f)
    ensures Hash(OPEN_K) in f.topics && !IsMember(f.topics[Hash(OPEN_K)], X)
  {
  }

  lemma JoinedInReplay()
    ensures Hash(OPEN_K) in FORUM_3.topics && IsMember(FORUM_3.topics[Hash(OPEN_K)], X)
  {
    assert JOINED_K.members[0].who == X;
  }

  lemma OneBlock(s: State, b: Block)
    requires b.Block? && b.parent == s.cur && BlockOk(s, b)
    ensures IsAncestor(s.cur, b) && PathFrom(s.cur, b) == [b]
    ensures ApplyBlocks(s, [b]) == Some(ApplyBlock(s, b))
  {
    hide BlockOk;
    assert Height(b) == Height(s.cur) + 1;
    assert PathFrom(b.parent, b.parent) == [] && [] + [b] == [b];
    assert [b][..0] == [] && ApplyBlocks(s, []) == Some(s);
  }

  /** Taking the reply off again, rollback would call back on the empty list of K's members. */
  lemma {:induction false} EmptyPop(t: State, n: nat)
    requires t.cur == Fast(n) && n < 256 && Unjoined(t.books.forum)
    ensures !RollbackDefined(t, 2)
    decreases n
  {
    hide UnblockBooks, UndoBlock;
    FastHeader(n);
    if n == 0 {
      EmptyMembers(t.books.forum);
      assert t.cur.txs == [SECOND_REPLY];
    } else {
      NothingUndone(t);
      EmptyPop(UndoBlock(t), n - 1);
    }
  }

  lemma EmptyMembers(f: Forum)
    requires Unjoined(f)
    ensures !Poppable(f, SECOND_REPLY) && !LoopDefined(f, [SECOND_REPLY])
  {
    NotAuthor();
    hide AUTHOR;
  }

  lemma NothingUndone(t: State)
    requires t.cur.Block? && t.cur.txs == [] && Height(t.cur) < TOPIC_LIFE_TIME + 2
    ensures UndoBlock(t).cur == t.cur.parent && UndoBlock(t).books.forum == t.books.forum
  {
    UndoneLogs(t);
    UndoneBooks(t);
  }
}
