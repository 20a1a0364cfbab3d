/** Exactly when undoing a block gives back the same ledger. */
module Undo {
  import opened Lists
  import opened Chain
  import opened Books
  import opened Inverse
  import opened Invariant
  import opened Expiry
  import opened Sim
  import opened Blocks
  import opened Replayed
  import opened Reorg
  import opened UndoLogs
  import opened Fidelity
  import opened Rollbacks

  // ---- Joined lists after an expiry is taken back

  /** The keys that expire at block `h`, oldest first. */
  function ExpiredKeys(f: Forum, h: nat): seq<Key>
    decreases |f.queue|
  {
    if FrontIsOld(f, h) then [f.queue[0]] + ExpiredKeys(ExpireFront(f), h) else []
  }

  /** The elements of `exp` that `q` has, in the order of `exp`. */
  function Common(exp: seq<Key>, q: seq<Key>): (r: seq<Key>)
    ensures forall x :: x in r <==> x in exp && x in q
  {
    if exp == [] then []
    else if exp[0] in q then [exp[0]] + Common(exp[1..], q)
    else Common(exp[1..], q)
  }

  lemma {:induction false} CommonCong(exp: seq<Key>, p: seq<Key>, q: seq<Key>)
    requires forall x :: x in exp ==> (x in p <==> x in q)
    ensures Common(exp, p) == Common(exp, q)
  {
    if exp != [] {
      CommonCong(exp[1..], p, q);
    }
  }

  lemma {:induction false} ExpiredKeysInQueue(f: Forum, h: nat)
    requires NoDup(f.queue)
    ensures forall x :: x in ExpiredKeys(f, h) ==> x in f.queue
    decreases |f.queue|
  {
    if FrontIsOld(f, h) {
      TailElements(f.queue);
      ExpiredKeysInQueue(ExpireFront(f), h);
    }
  }

  /** After expiring and restoring, a joined list holds its expired topics first, in queue order. */
  lemma {:induction false} RestoredJoined(b: Books, h: nat, p: Pubkey)
    requires Inv(b, h) && p in b.forum.joined
    ensures p in Restore(Expire(b.forum, h), ExpiredLog(b.forum, h)).joined
    ensures var q, exp := b.forum.joined[p], ExpiredKeys(b.forum, h);
            Restore(Expire(b.forum, h), ExpiredLog(b.forum, h)).joined[p] == Common(exp, q) + Minus(q, exp)
    decreases |b.forum.queue|
  {
    hide Inv, RestoreFront, Expire, ExpiredLog, Common, Minus, ExpireFront;
    var f := b.forum;
    var q := f.joined[p];
    if FrontIsOld(f, h) {
      var e := Expired(f.queue[0], f.topics[f.queue[0]]);
      var d := b.(forum := ExpireFront(f));
      ExpireFrontInv(b, h);
      ExpireUnfold(f, h);
      Shorter(f);
      SameJoiners(f, p);
      RestoredJoined(d, h, p);
      RestoreAppend(Expire(d.forum, h), ExpiredLog(d.forum, h), e);
      RejoinStep(b, h, p, Restore(Expire(d.forum, h), ExpiredLog(d.forum, h)));
    } else {
      NothingExpires(f, h);
      MinusNone(q, []);
      CommonNone(q);
    }
  }

  lemma SameJoiners(f: Forum, p: Pubkey)
    requires f.queue != [] && f.queue[0] in f.topics
    ensures p in ExpireFront(f).joined <==> p in f.joined
  {
  }

  lemma SomeElement<T(!new)>(q: seq<T>)
    ensures q != [] ==> exists x :: x in q
  {
    if q != [] {
      assert q[0] in q;
    }
  }

  lemma CommonNone(q: seq<Key>)
    ensures Common([], q) == []
  {
  }

  lemma RejoinStep(b: Books, h: nat, p: Pubkey, r: Forum)
    requires Inv(b, h) && p in b.forum.joined && FrontIsOld(b.forum, h) && p in r.joined
    requires var g := ExpireFront(b.forum);
             r.joined[p] == Common(ExpiredKeys(g, h), g.joined[p]) + Minus(g.joined[p], ExpiredKeys(g, h))
    ensures p in RestoreFront(r, Expired(b.forum.queue[0], b.forum.topics[b.forum.queue[0]])).joined
    ensures var q, exp := b.forum.joined[p], ExpiredKeys(b.forum, h);
            var k := b.forum.queue[0];
            RestoreFront(r, Expired(k, b.forum.topics[k])).joined[p] == Common(exp, q) + Minus(q, exp)
  {
    hide TopicsOk, ColumnsOk, MembersOk, IsMember, Common, Minus, EraseFirst, SortedByAge, NoneYounger, OwnedBy;
    var f := b.forum;
    var g := ExpireFront(f);
    var k := f.queue[0];
    var q, exp := f.joined[p], ExpiredKeys(g, h);
    MembersAreJoiners(f, k, p);
    assert JoinedListOk(f, p);
    EraseIsMinus(q, k);
    TailElements(f.queue);
    assert NoDup(g.queue);
    ExpiredKeysInQueue(g, h);
    FrontKey(q, exp, k);
  }

  lemma FrontKey(q: seq<Key>, exp: seq<Key>, k: Key)
    requires k !in exp
    ensures k in q ==>
              [k] + (Common(exp, Minus(q, [k])) + Minus(Minus(q, [k]), exp))
              == Common([k] + exp, q) + Minus(q, [k] + exp)
    ensures k !in q ==> Common(exp, q) + Minus(q, exp) == Common([k] + exp, q) + Minus(q, [k] + exp)
  {
    assert ([k] + exp)[1..] == exp;
    CommonCong(exp, Minus(q, [k]), q);
    MinusTwice(q, [k], exp);
    if k !in q {
      MinusCong(q, exp, [k] + exp);
    }
  }

  /** In every joined list the topics that expire at block `h` come first, in queue order. */
  ghost predicate JoinedByAge(f: Forum, h: nat) {
    forall p :: p in f.joined ==> Common(ExpiredKeys(f, h), f.joined[p]) <= f.joined[p]
  }

  lemma PrefixIsFronted(q: seq<Key>, exp: seq<Key>)
    requires NoDup(q)
    ensures Common(exp, q) <= q <==> Common(exp, q) + Minus(q, exp) == q
  {
    var c := Common(exp, q);
    if c <= q {
      RestIsMinus(q, exp, c, q[|c|..]);
    }
  }

  lemma RestIsMinus(q: seq<Key>, exp: seq<Key>, c: seq<Key>, rest: seq<Key>)
    requires NoDup(q) && q == c + rest
    requires forall x :: x in c <==> x in exp && x in q
    ensures Minus(q, exp) == rest
  {
    hide Minus;
    MinusAppend(c, rest, exp);
    SomeElement(Minus(c, exp));
    forall x | x in rest ensures x !in exp {
      var i :| 0 <= i < |rest| && rest[i] == x;
      forall j | 0 <= j < |c| ensures c[j] != x {
        assert q[j] == c[j] && q[|c| + i] == x;
      }
    }
    MinusNone(rest, exp);
  }

  /** Expiring and restoring gives back the very same forum exactly when joined lists are ordered by age. */
  lemma RestoreExactIff(b: Books, h: nat)
    requires Inv(b, h)
    ensures Restore(Expire(b.forum, h), ExpiredLog(b.forum, h)) == b.forum <==> JoinedByAge(b.forum, h)
  {
    hide Restore, Expire, ExpiredLog, ExpiredKeys, Sound, MembersOk, Common, Minus;
    var f := b.forum;
    var g := Restore(Expire(f, h), ExpiredLog(f, h));
    AlikeItself(Expire(f, h));
    RestoreExpireAlike(Expire(f, h), b, h);
    forall p | p in f.joined
      ensures g.joined[p] == f.joined[p] <==> Common(ExpiredKeys(f, h), f.joined[p]) <= f.joined[p]
    {
      RestoredJoined(b, h, p);
      assert JoinedListOk(f, p);
      PrefixIsFronted(f.joined[p], ExpiredKeys(f, h));
    }
    SameJoined(g, f);
  }

  lemma AlikeItself(f: Forum)
    ensures ForumAlike(f, f)
  {
  }

  lemma SameJoined(g: Forum, f: Forum)
    requires ForumAlike(g, f)
    ensures g == f <==> forall p :: p in f.joined ==> g.joined[p] == f.joined[p]
  {
    if forall p :: p in f.joined ==> g.joined[p] == f.joined[p] {
      assert g.joined == f.joined;
    }
  }

  // ---- One block applied and undone

  /** The miner's pay and the reverse loop give back the state the transactions of the block started from, exactly. */
  lemma UndoTransactions(s: State, b: Block)
    requires Boundary(s) && BlockOk(s, b)
    ensures UnblockBooks(BlockBooks(NextBooks(s), b), b, BlockRewarded(NextBooks(s), b)) == NextBooks(s)
  {
    hide Boundary, Inv, TxsFit, ApplyTxs, NextBooks, BlockOk, PayMiner, UnpayMiner, Rewards;
    var h := Height(b);
    var p := NextBooks(s);
    AppliedForum(s, b);
    PrepareInv(s);
    MinerKnown(s, b);
    UndoTxsExactly(p, b.txs, h, true);
    var a := ApplyTxs(p, b.txs, h, true);
    HasReserve(a, h);
    UnpayPay(a.bal, b.miner, |b.txs|);
    assert a.(bal := PayMiner(a.bal, b.miner, |b.txs|)).(bal := a.bal) == a;
  }

  /** The books after `b` is applied and taken off again, from a ledger that kept its undo entry. */
  ghost function Undone(s: State, b: Block): Books
    requires b.Block?
  {
    UndoBlock(ApplyBlock(s, b)).books
  }

  lemma UndoneAre(s: State, b: Block)
    requires Boundary(s) && BlockOk(s, b)
    ensures Undone(s, b) ==
              if Height(b) < TOPIC_LIFE_TIME + 2 then s.books
              else UnprepareBooks(NextBooks(s), ExpiredLog(s.books.forum, Height(b)), LeavingAt(s))
  {
    hide Inv, SoundBoundary, Linked, TxsOk, HeaderOk, PrepareOk, BlockBooks, BlockRewarded, UnblockBooks, PrepareBooks,
         UnprepareBooks, ExpiredLog, LeavingIds, Reversed;
    UndoTransactions(s, b);
    if Height(b) < TOPIC_LIFE_TIME + 2 {
      EarlyBooks(s);
    }
  }

  /** Applying a valid block and undoing it gives back the same books, the joined lists as sets; they are
      the very same books if and only if no joined list has an expiring topic behind a younger one. */
  lemma ApplyThenUndo(s: State, b: Block)
    requires Boundary(s) && BlockOk(s, b)
    ensures BooksSim(Undone(s, b), s.books)
    ensures Undone(s, b) == s.books <==> Height(b) < TOPIC_LIFE_TIME + 2 || JoinedByAge(s.books.forum, Height(b))
  {
    hide Boundary, Inv, BlockOk, Undone, UnprepareBooks, NextBooks, BooksSim, ExpiredLog, JoinedByAge, LeavingAt;
    UndoneAre(s, b);
    var h := Height(b);
    ParentOf(s, b);
    if h < TOPIC_LIFE_TIME + 2 {
      BoundaryInv(s);
      SimRefl(s.books, h - 1);
    } else {
      UnpreparedIff(s);
    }
  }

  /** Expiry and forgetting at the next block, and what takes them back. */
  lemma UnpreparedIff(s: State)
    requires Boundary(s) && Height(s.cur) + 1 >= TOPIC_LIFE_TIME + 2
    ensures var x := UnprepareBooks(NextBooks(s), ExpiredLog(s.books.forum, Height(s.cur) + 1), LeavingAt(s));
            BooksSim(x, s.books) && (x == s.books <==> JoinedByAge(s.books.forum, Height(s.cur) + 1))
  {
    hide Boundary, Inv, UnprepareBooks, NextBooks, BooksSim, ExpiredLog, JoinedByAge, LeavingAt;
    var h := Height(s.cur) + 1;
    PrepareInv(s);
    SimRefl(NextBooks(s), h);
    UnprepareSim(NextBooks(s), s);
    BoundaryInv(s);
    InvOlder(s.books, h - 1, h);
    RestoreExactIff(s.books, h);
    UnpreparedForum(s);
    SimForum(UnprepareBooks(NextBooks(s), ExpiredLog(s.books.forum, h), LeavingAt(s)), s.books);
  }

  lemma UnpreparedForum(s: State)
    requires Height(s.cur) + 1 >= TOPIC_LIFE_TIME + 2
    ensures UnprepareBooks(NextBooks(s), ExpiredLog(s.books.forum, Height(s.cur) + 1), LeavingAt(s)).forum
            == Restore(Expire(s.books.forum, Height(s.cur) + 1), ExpiredLog(s.books.forum, Height(s.cur) + 1))
  {
    hide Restore, Expire, ExpiredLog;
  }

  lemma SimForum(x: Books, y: Books)
    requires BooksSim(x, y)
    ensures x == y <==> x.forum == y.forum
  {
    hide ForumAlike, JoinedSame;
  }

  /** What is left of an undo log after a block has pruned it and its own entry was taken back. */
  function LogAfter<T>(m: map<nat, T>, h: nat): map<nat, T> {
    if h < TOPIC_LIFE_TIME + 2 then m else Pruned(m, h)
  }

  /** Everything but the books: the chain position, the height index and the marks come back; each undo log loses
      the entry that the block pruned and nothing else. */
  lemma ApplyThenUndoRest(s: State, b: Block)
    requires Boundary(s) && BlockOk(s, b)
    ensures var t := UndoBlock(ApplyBlock(s, b));
            && t.cur == s.cur && t.byHeight == s.byHeight && t.inMain == s.inMain
            && t.undoTopics == LogAfter(s.undoTopics, Height(b)) && t.undoTxs == LogAfter(s.undoTxs, Height(b))
            && t.rewarded == s.rewarded[b := BlockRewarded(NextBooks(s), b)]
  {
    hide Boundary, BlockOk, BlockRewarded, ExpiredLog, LeavingIds, NextBooks, ApplyBlock, UndoBlock, LogPut, LogAfter,
         Leaving;
    ParentOf(s, b);
    NewAtTop(s, b);
    AppliedRest(s, b);
    UndoneLogs(ApplyBlock(s, b));
    UndoneIndex(ApplyBlock(s, b));
    assert s.byHeight[Height(b) := b] - {Height(b)} == s.byHeight;
    assert s.inMain + {b} - {b} == s.inMain;
    PutAndTaken(s.undoTopics, Height(b), ExpiredLog(s.books.forum, Height(b)));
    PutAndTaken(s.undoTxs, Height(b), Leaving(LeavingIds(s.byHeight, Height(b)), Height(b)));
  }

  lemma NewAtTop(s: State, b: Block)
    requires Boundary(s) && BlockOk(s, b)
    ensures b.parent == s.cur && Height(b) !in s.byHeight && b !in s.inMain
  {
    hide Sound, Linked, LiveFrom, FreshIds, IdMap, TopicIds, TxsOk, PrepareOk;
    if IsAncestor(b, s.cur) {
      AncestorHeight(b, s.cur);
    }
  }

  lemma PutAndTaken<T>(m: map<nat, T>, h: nat, entry: T)
    requires h >= 1
    ensures h >= TOPIC_LIFE_TIME + 2 ==> LogPut(m, h, entry) - {UndoKey(h)} == LogAfter(m, h)
    ensures h < TOPIC_LIFE_TIME + 2 ==> LogPut(m, h, entry) == LogAfter(m, h)
  {
  }

  /** mine_tx leaves the books as they were, the joined lists as sets, and exactly as they were if and only if nothing
      would expire at the next block or the joined lists are ordered by age; each undo log loses one entry. */
  lemma SpeculatedIff(s: State)
    requires Boundary(s)
    ensures var t, h := Speculated(s), Height(s.cur) + 1;
            && BooksSim(t.books, s.books)
            && (t.books == s.books <==> h < TOPIC_LIFE_TIME + 2 || JoinedByAge(s.books.forum, h))
            && t.cur == s.cur && t.byHeight == s.byHeight && t.inMain == s.inMain && t.rewarded == s.rewarded
            && t.undoTopics == LogAfter(s.undoTopics, h) && t.undoTxs == LogAfter(s.undoTxs, h)
  {
    hide Boundary, NextBooks, UnprepareBooks, ExpiredLog, LeavingIds, Reversed, Speculated, BooksSim, JoinedByAge,
         LogPut;
    SpeculatedParts(s);
    SpeculatedExactly(s);
    var h := Height(s.cur) + 1;
    PutAndTaken(s.undoTopics, h, ExpiredLog(s.books.forum, h));
    PutAndTaken(s.undoTxs, h, Leaving(LeavingIds(s.byHeight, h), h));
  }

  lemma SpeculatedExactly(s: State)
    requires Boundary(s)
    ensures BooksSim(Speculated(s).books, s.books)
    ensures Speculated(s).books == s.books <==>
              Height(s.cur) + 1 < TOPIC_LIFE_TIME + 2 || JoinedByAge(s.books.forum, Height(s.cur) + 1)
  {
    SpeculatedParts(s);
    hide Boundary, Inv, UnprepareBooks, PrepareBooks, BooksSim, ExpiredLog, JoinedByAge, LeavingIds, Speculated,
         Reversed;
    var h := Height(s.cur) + 1;
    if h < TOPIC_LIFE_TIME + 2 {
      EarlyBooks(s);
      BoundaryInv(s);
      SimRefl(s.books, h - 1);
    } else {
      UnpreparedIff(s);
    }
  }

  // ---- A condition on joined lists alone

  /** At each block above `f`, up to `b`, the joined lists that start rebuilds are ordered by age when it expires
      something. */
  ghost predicate AgedAbove(b: Block, f: Block)
    requires IsAncestor(f, b)
  {
    b == f ||
    (&& AgedAbove(b.parent, f)
     && (Height(b) < TOPIC_LIFE_TIME + 2
         || (Replay(b.parent).Some? && JoinedByAge(Replay(b.parent).value.books.forum, Height(b)))))
  }

  lemma UndoneReplay(s: State, top: nat)
    requires Tracks(s, top) && s.cur.Block? && InReach(Height(s.cur.parent), top)
    requires s.books == Replay(s.cur).value.books && Replay(s.cur.parent).Some?
    requires Height(s.cur) < TOPIC_LIFE_TIME + 2
             || JoinedByAge(Replay(s.cur.parent).value.books.forum, Height(s.cur))
    ensures UndoBlock(s).books == Replay(s.cur.parent).value.books
  {
    hide SoundBoundary, Linked, BooksAlike, TopicLogOk, TxLogOk, IndexOk, BlockOk, UnblockBooks, BlockBooks,
         BlockRewarded, NextBooks, ApplyBlock, UndoBlock, UnprepareBooks, Replay, LogAt, GoneAt, ExpiredLog, LeavingAt,
         JoinedByAge, BooksSim;
    var b := s.cur;
    ReplayStep(b);
    ReplayBoundary(b.parent);
    var r := Replay(b.parent).value;
    AppliedBooksAre(r, b);
    assert IsAncestor(b, s.cur);
    UndoTransactions(r, b);
    UndoneBooks(s);
    if Height(b) >= TOPIC_LIFE_TIME + 2 {
      EntriesRead(s, r, top);
      UnpreparedIff(r);
    } else {
      EarlyBooks(r);
    }
  }

  /** Rollback then gives back the very books that start rebuilds. */
  lemma {:induction false} RollbackExact(s: State, f: Block, top: nat)
    requires Tracks(s, top) && IsAncestor(f, s.cur) && InReach(Height(f), top)
    requires s.books == Replay(s.cur).value.books && AgedAbove(s.cur, f)
    ensures Rollback(s, Height(f)).cur == f && Replay(f).Some?
    ensures Rollback(s, Height(f)).books == Replay(f).value.books
    decreases Height(s.cur)
  {
    TracksReplay(s, top);
    hide Tracks, UndoBlock, CanUndo, JoinedByAge, Replay;
    AncestorHeight(f, s.cur);
    if s.cur != f {
      AncestorHeight(f, s.cur.parent);
      UndoTracks(s, top);
      UndoneReplay(s, top);
      RollbackExact(UndoBlock(s), f, top);
    }
  }

  /** What a caller can check: joined lists as start rebuilds them, and ordered by age wherever something expired on the
      way, come back. */
  lemma BackByAge(s: State, f: Block, top: nat)
    requires Tracks(s, top) && IsAncestor(f, s.cur) && InReach(Height(f), top)
    requires s.books == Replay(s.cur).value.books && AgedAbove(s.cur, f)
    ensures JoinedBack(s, f)
  {
    RollbackExact(s, f, top);
    RollbackTracks(s, f, top);
    TracksReplay(s, top);
    ExactIsFaithful(s, top);
    ExactIsFaithful(Rollback(s, Height(f)), top);
    hide Faithful, Tracks, Rollback, Replay, JoinedBack;
    RollbackFaithfulIff(s, f, top);
  }

  lemma ExactIsFaithful(s: State, top: nat)
    requires Tracks(s, top) && s.books == Replay(s.cur).value.books
    ensures Faithful(s, top)
  {
    hide Tracks, BooksSim, Boundary, Replay;
    TracksReplay(s, top);
    FaithfulParts(s, top);
    ReplayBoundary(s.cur);
    BoundaryInv(Replay(s.cur).value);
    SimRefl(s.books, Height(s.cur));
  }
}
