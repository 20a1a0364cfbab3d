/** Speculation, rollback and branch switches on a ledger that start would rebuild. */
module Rollbacks {
  import opened Lists
  import opened Chain
  import opened Books
  import opened Inverse
  import opened Invariant
  import opened Expiry
  import opened Sim
  import opened Blocks
  import opened Replayed
  import opened Reorg
  import opened UndoLogs
  import opened Fidelity

  // ---- Such a ledger is at a block boundary itself

  /** A ledger that tracks its replay is at a block boundary, whatever its joined lists hold. */
  lemma TracksBoundary(s: State, top: nat)
    requires Tracks(s, top)
    ensures SoundBoundary(s)
  {
    hide Sound, BooksAlike, FreshIds, IdMap, TopicIds, IndexOk, UndoOk, RewardsOk, Replay, Linked, LiveFrom;
    ReplayBoundary(s.cur);
    var r := Replay(s.cur).value;
    AlikeSound(s.books, r.books, Height(s.cur));
    AlikeLive(s.books, r.books, Oldest(Height(s.cur)));
  }

  lemma AlikeLive(s: Books, r: Books, lo: int)
    requires BooksAlike(s, r) && LiveFrom(r.forum, lo)
    ensures LiveFrom(s.forum, lo) && s.forum.queue == r.forum.queue && s.txMap == r.txMap
  {
  }

  /** A faithful ledger has members and joined lists in step, too. */
  lemma FaithfulBoundary(s: State, top: nat)
    requires Faithful(s, top)
    ensures Boundary(s)
  {
    hide Tracks, BooksSim, SoundBoundary, Linked, Replay, JoinedSame;
    FaithfulParts(s, top);
    TracksBoundary(s, top);
    TracksReplay(s, top);
    ReplayBoundary(s.cur);
    SimLinked(s.books, Replay(s.cur).value.books);
  }

  lemma SimLinked(s: Books, r: Books)
    requires BooksSim(s, r) && Linked(r.forum)
    ensures Linked(s.forum)
  {
    hide IsMember;
    forall p | p in s.forum.joined ensures JoinedListOk(s.forum, p) {
      assert JoinedListOk(r.forum, p);
    }
    forall k, p | k in s.forum.topics && IsMember(s.forum.topics[k], p) ensures k in ListAt(s.forum.joined, p) {
      assert k in ListAt(r.forum.joined, p);
    }
  }

  // ---- mine_tx

  lemma SpeculatedParts(s: State)
    ensures Speculated(s).cur == s.cur && Speculated(s).byHeight == s.byHeight
    ensures Speculated(s).inMain == s.inMain && Speculated(s).rewarded == s.rewarded
    ensures var h := Height(s.cur) + 1;
            if h < TOPIC_LIFE_TIME + 2
            then Speculated(s).undoTopics == s.undoTopics && Speculated(s).undoTxs == s.undoTxs
            else && Speculated(s).undoTopics == LogTopics(s.undoTopics, s.books.forum, h) - {UndoKey(h)}
                 && Speculated(s).undoTxs == LogTxs(s.undoTxs, LeavingIds(s.byHeight, h), h) - {UndoKey(h)}
    ensures var h := Height(s.cur) + 1;
            Speculated(s).books ==
              if h < TOPIC_LIFE_TIME + 2 then NextBooks(s)
              else UnprepareBooks(NextBooks(s), ExpiredLog(s.books.forum, h), Leaving(LeavingIds(s.byHeight, h), h))
  {
    hide PrepareBooks, UnprepareBooks, ExpiredLog, LeavingIds, Reversed;
  }

  lemma SpeculatedBooks(s: State, top: nat)
    requires Faithful(s, top)
    ensures BooksSim(Speculated(s).books, Replay(s.cur).value.books)
    ensures forall b: Block :: b.Block? && b.parent == s.cur ==> ExpiredLog(s.books.forum, Height(b)) == LogOf(b)
  {
    FaithfulParts(s, top);
    hide SoundBoundary, Linked, UndoOk, RewardsOk, IndexOk, BooksSim, BooksAlike, JoinedSame, PrepareBooks,
         UnprepareBooks, ExpiredLog, LogPut, Replay, Speculated, LeavingIds;
    ReplayBoundary(s.cur);
    var r := Replay(s.cur).value;
    SameHeights(s, r);
    var h := Height(s.cur) + 1;
    SimPrepare(s.books, r.books, h, LeavingIds(r.byHeight, h));
    SpeculatedParts(s);
    if h >= TOPIC_LIFE_TIME + 2 {
      UnprepareSim(NextBooks(s), r);
    } else {
      EarlyBooks(r);
    }
  }

  /** Speculation is invisible: mine_tx leaves the ledger start rebuilds, one undo entry shorter. */
  lemma SpeculateFaithful(s: State, top: nat)
    requires Faithful(s, top)
    ensures Faithful(Speculated(s), Max(top, Height(s.cur) + 1))
  {
    hide UndoOk, RewardsOk, IndexOk, BooksAlike, JoinedSame, Speculated, Replay, ExpiredLog, LogOf;
    SpeculatedParts(s);
    SpeculatedBooks(s, top);
    PrunedLogs(s, Speculated(s), top, LogOf);
    SameChain(s, Speculated(s));
  }

  /** Where members and joined lists agree, everything mine_tx tried comes back exactly. */
  lemma TriedIsSpeculated(s: State, txs: seq<Tx>)
    requires Boundary(s) && TxsFit(NextBooks(s), txs, Height(s.cur) + 1, false)
    ensures Tried(s, txs) == Speculated(s)
  {
    hide Boundary, Inv, TxsFit, ApplyTxs, UndoTxs, Unprepare, PrepareBooks, LogTopics, LogTxs, LeavingIds;
    PrepareInv(s);
    UndoTxsExactly(NextBooks(s), txs, Height(s.cur) + 1, false);
  }

  lemma SameChain(s: State, t: State)
    requires IndexOk(s) && RewardsOk(s, RewardOf)
    requires t.cur == s.cur && t.byHeight == s.byHeight && t.inMain == s.inMain && t.rewarded == s.rewarded
    ensures IndexOk(t) && RewardsOk(t, RewardOf)
  {
  }

  // ---- rollback

  /** The topics that the first replies of `p` in the blocks above `f`, up to `b`, join, in order. */
  ghost function PathJoins(b: Block, f: Block, p: Pubkey): seq<Key>
    requires IsAncestor(f, b)
  {
    if b == f then [] else PathJoins(b.parent, f, p) + BlockJoins(b, p)
  }

  /** What undoing these blocks pushes to the front of the joined list of `p`. */
  ghost function PathPushed(b: Block, f: Block, p: Pubkey): seq<Key>
    requires IsAncestor(f, b)
  {
    if b == f then [] else PathPushed(b.parent, f, p) + BlockPushed(b, p)
  }

  /** What a block does to a joined list: it takes out what expires and adds what first replies join. */
  lemma BlockLists(b: Block, p: Pubkey)
    requires b.Block? && Replay(b).Some? && Replay(b.parent).Some? && p in Replay(b.parent).value.books.forum.joined
    ensures var r, t := Replay(b.parent).value.books.forum, Replay(b).value.books.forum;
            && p in t.joined && |BlockJoins(b, p)| <= |t.joined[p]|
            && multiset(BlockPushed(b, p)) + multiset(t.joined[p]) == multiset(r.joined[p]) + multiset(BlockJoins(b, p))
  {
    hide Boundary, NextBooks, ApplyBlock, BlockOk, Replay, JoinsOf, ExpiredLog, Pushed;
    ReplayStep(b);
    ReplayBoundary(b.parent);
    var r := Replay(b.parent).value;
    PreparedKeys(r);
    JoinedInBlock(r, b, p);
    ExpiredBefore(r, p);
  }

  lemma JoinedInBlock(r: State, b: Block, p: Pubkey)
    requires Boundary(r) && BlockOk(r, b) && p in NextBooks(r).forum.joined
    ensures p in ApplyBlock(r, b).books.forum.joined
    ensures ApplyBlock(r, b).books.forum.joined[p]
            == NextBooks(r).forum.joined[p] + JoinsOf(NextBooks(r), b.txs, Height(b), true, p)
  {
    hide Boundary, Sound, Linked, NextBooks, ApplyBlock, BlockOk, TxsFit, ApplyTxs, JoinsOf;
    AppliedForum(r, b);
    PrepareInv(r);
    SoundOf(NextBooks(r), Height(b));
    ListAfterTxs(NextBooks(r), b.txs, Height(b), true, p);
  }

  lemma ExpiredBefore(r: State, p: Pubkey)
    requires Boundary(r) && p in r.books.forum.joined
    ensures p in NextBooks(r).forum.joined
    ensures var h := Height(r.cur) + 1;
            multiset(r.books.forum.joined[p])
            == multiset(if h < TOPIC_LIFE_TIME + 2 then [] else Pushed(ExpiredLog(r.books.forum, h), p))
               + multiset(NextBooks(r).forum.joined[p])
  {
    hide Boundary, Inv, NextBooks, Expire, ExpiredLog, Pushed;
    PreparedForum(r);
    BoundaryInv(r);
    if Height(r.cur) + 1 >= TOPIC_LIFE_TIME + 2 {
      InvOlder(r.books, Height(r.cur), Height(r.cur) + 1);
      ExpireCounts(r.books, Height(r.cur) + 1, p);
    }
  }

  /** What is in a joined list at the end of a path of blocks. */
  lemma {:induction false} PathLists(b: Block, f: Block, p: Pubkey)
    requires IsAncestor(f, b) && Replay(b).Some? && Replay(f).Some? && p in Replay(f).value.books.forum.joined
    ensures p in Replay(b).value.books.forum.joined
    ensures multiset(PathPushed(b, f, p)) + multiset(Replay(b).value.books.forum.joined[p])
            == multiset(Replay(f).value.books.forum.joined[p]) + multiset(PathJoins(b, f, p))
  {
    hide BlockJoins, BlockPushed, BlockOk, ApplyBlock;
    if b != f {
      ReplayStep(b);
      hide Replay;
      PathLists(b.parent, f, p);
      BlockLists(b, p);
      Combined(multiset(PathPushed(b.parent, f, p)), multiset(BlockPushed(b, p)),
               multiset(Replay(b).value.books.forum.joined[p]), multiset(Replay(b.parent).value.books.forum.joined[p]),
               multiset(Replay(f).value.books.forum.joined[p]), multiset(PathJoins(b.parent, f, p)),
               multiset(BlockJoins(b, p)));
    }
  }

  lemma Combined(a: multiset<Key>, c: multiset<Key>, x: multiset<Key>, y: multiset<Key>, z: multiset<Key>,
                 m: multiset<Key>, n: multiset<Key>)
    requires a + y == z + m && c + x == y + n
    ensures (a + c) + x == z + (m + n)
  {
    assert (a + c) + x == a + (c + x);
    assert a + (y + n) == (a + y) + n;
  }

  /** pop_back as often as there were joins, below what was pushed to the front. */
  lemma PushAndDrop<T>(a: seq<T>, c: seq<T>, q: seq<T>, m: nat, n: nat)
    requires m <= |q| && n <= |a + (c + DropEnd(q, m))|
    ensures m + n <= |(a + c) + q|
    ensures DropEnd(a + (c + DropEnd(q, m)), n) == DropEnd((a + c) + q, n + m)
  {
    var l, r := a + (c + DropEnd(q, m)), (a + c) + q;
    assert l == r[..|r| - m];
  }

  /** What rolling back to `f` makes of the joined list `q` of `p`. */
  ghost function RolledBack(q: seq<Key>, b: Block, f: Block, p: Pubkey): seq<Key>
    requires IsAncestor(f, b)
  {
    DropEnd(PathPushed(b, f, p) + q, |PathJoins(b, f, p)|)
  }

  /** Rollback's first loop reaches every ancestor in reach and leaves the ledger start rebuilds for it, whatever the
      joined lists hold; it pushes what expired on the way to the front of each of those and takes as many elements off
      its end as topics were joined. */
  lemma {:induction false} RollbackTracks(s: State, f: Block, top: nat)
    requires Tracks(s, top) && IsAncestor(f, s.cur) && InReach(Height(f), top)
    ensures Rollback(s, Height(f)).cur == f
    ensures Tracks(Rollback(s, Height(f)), top)
    ensures forall p :: p in Replay(f).value.books.forum.joined ==>
              && p in s.books.forum.joined && p in Rollback(s, Height(f)).books.forum.joined
              && |PathJoins(s.cur, f, p)| <= |PathPushed(s.cur, f, p) + s.books.forum.joined[p]|
              && Rollback(s, Height(f)).books.forum.joined[p] == RolledBack(s.books.forum.joined[p], s.cur, f, p)
    decreases Height(s.cur)
  {
    hide Tracks, UndoBlock, CanUndo, BlockJoins, BlockPushed, DropEnd, Replay;
    AncestorHeight(f, s.cur);
    if s.cur == f {
      RollbackNone(s, top);
    } else {
      AncestorHeight(f, s.cur.parent);
      TracksReplay(s, top);
      UndoTracks(s, top);
      RollbackTracks(UndoBlock(s), f, top);
      forall p | p in Replay(f).value.books.forum.joined
        ensures p in s.books.forum.joined && p in Rollback(s, Height(f)).books.forum.joined
        ensures |PathJoins(s.cur, f, p)| <= |PathPushed(s.cur, f, p) + s.books.forum.joined[p]|
        ensures Rollback(s, Height(f)).books.forum.joined[p] == RolledBack(s.books.forum.joined[p], s.cur, f, p)
      {
        PathLists(s.cur.parent, f, p);
        BlockLists(s.cur, p);
        TracksList(s, top, p);
        PushAndDrop(PathPushed(s.cur.parent, f, p), BlockPushed(s.cur, p), s.books.forum.joined[p],
                    |BlockJoins(s.cur, p)|, |PathJoins(s.cur.parent, f, p)|);
      }
    }
  }

  lemma RollbackNone(s: State, top: nat)
    requires Tracks(s, top)
    ensures Rollback(s, Height(s.cur)) == s
    ensures forall p :: p in Replay(s.cur).value.books.forum.joined ==>
              && p in s.books.forum.joined
              && RolledBack(s.books.forum.joined[p], s.cur, s.cur, p) == s.books.forum.joined[p]
  {
    hide IndexOk, RewardsOk, UndoOk, Replay;
    forall p | p in s.books.forum.joined
      ensures RolledBack(s.books.forum.joined[p], s.cur, s.cur, p) == s.books.forum.joined[p]
    {
      assert [] + s.books.forum.joined[p] == s.books.forum.joined[p];
    }
  }

  lemma TracksReplay(s: State, top: nat)
    requires Tracks(s, top)
    ensures Replay(s.cur).Some? && (s.cur.Block? ==> Replay(s.cur.parent).Some?)
    ensures forall f :: IsAncestor(f, s.cur) ==> Replay(f).Some?
  {
    if s.cur.Block? {
      ReplayStep(s.cur);
    }
    forall f | IsAncestor(f, s.cur) ensures Replay(f).Some? {
      ReplayPrefix(f, s.cur);
    }
  }

  lemma TracksList(s: State, top: nat, p: Pubkey)
    requires Tracks(s, top) && p in Replay(s.cur).value.books.forum.joined
    ensures p in s.books.forum.joined && |s.books.forum.joined[p]| == |Replay(s.cur).value.books.forum.joined[p]|
  {
    hide IndexOk, RewardsOk, UndoOk, Replay;
  }

  lemma {:induction false} ReplayPrefix(a: Block, b: Block)
    requires IsAncestor(a, b) && Replay(b).Some?
    ensures Replay(a).Some?
  {
    if a != b {
      ReplayNext(b);
      ReplayPrefix(a, b.parent);
    }
  }

  /** For the blocks above `f` to be undone without harm to the joined list `q` of `p`, the last elements of the list,
      with what the restores push to its front, must be the topics that the first replies of `p` in them joined. */
  ghost predicate BackFor(q: seq<Key>, b: Block, f: Block, p: Pubkey)
    requires IsAncestor(f, b)
  {
    var all, joins := PathPushed(b, f, p) + q, PathJoins(b, f, p);
    |joins| <= |all| && multiset(all[|all| - |joins|..]) == multiset(joins)
  }

  ghost predicate JoinedBack(s: State, f: Block)
    requires IsAncestor(f, s.cur)
  {
    Replay(f).Some? ==>
      forall p :: p in Replay(f).value.books.forum.joined && p in s.books.forum.joined ==>
        BackFor(s.books.forum.joined[p], s.cur, f, p)
  }

  /** When these first replies joined a single topic, pop_back has to find it at the end, and does not look. */
  lemma OneJoinedBack(q: seq<Key>, b: Block, f: Block, p: Pubkey, k: Key)
    requires IsAncestor(f, b) && PathJoins(b, f, p) == [k]
    ensures var all := PathPushed(b, f, p) + q;
            BackFor(q, b, f, p) <==> all != [] && all[|all| - 1] == k
  {
    hide PathJoins, PathPushed;
    var all := PathPushed(b, f, p) + q;
    if all != [] {
      assert all[|all| - 1..] == [all[|all| - 1]];
      assert multiset([k])[k] == 1;
    }
  }

  /** When that topic also expired in them, it is pushed to the front, so the list must have been empty but for it. */
  lemma JoinedAndPushedBack(q: seq<Key>, b: Block, f: Block, p: Pubkey, k: Key)
    requires IsAncestor(f, b) && PathJoins(b, f, p) == [k] && PathPushed(b, f, p) == [k] && k !in q
    ensures BackFor(q, b, f, p) <==> q == []
  {
    hide PathJoins, PathPushed, BackFor;
    OneJoinedBack(q, b, f, p, k);
    if q != [] {
      assert ([k] + q)[|[k] + q| - 1] == q[|q| - 1];
    }
  }

  lemma RestIff(a: multiset<Key>, c: multiset<Key>, rest: multiset<Key>, joins: multiset<Key>)
    requires a + c == rest + joins
    ensures a == rest <==> c == joins
  {
    assert (a + c) - c == a && (rest + joins) - joins == rest;
    assert (a + c) - a == c && (rest + joins) - rest == joins;
  }

  lemma DroppedIff(all: seq<Key>, joins: seq<Key>, rest: seq<Key>)
    requires |joins| <= |all| && multiset(all) == multiset(rest) + multiset(joins)
    ensures multiset(DropEnd(all, |joins|)) == multiset(rest) <==> multiset(all[|all| - |joins|..]) == multiset(joins)
  {
    var a, c := DropEnd(all, |joins|), all[|all| - |joins|..];
    assert multiset(all) == multiset(a) + multiset(c) by {
      assert all == a + c;
    }
    RestIff(multiset(a), multiset(c), multiset(rest), multiset(joins));
  }

  lemma BackIff(s: State, f: Block, top: nat, p: Pubkey)
    requires Faithful(s, top) && IsAncestor(f, s.cur) && InReach(Height(f), top)
    requires Replay(f).Some? && p in Replay(f).value.books.forum.joined
    ensures p in s.books.forum.joined && p in Rollback(s, Height(f)).books.forum.joined
    ensures Permuted(Rollback(s, Height(f)).books.forum.joined[p], Replay(f).value.books.forum.joined[p]) <==>
              BackFor(s.books.forum.joined[p], s.cur, f, p)
  {
    hide Tracks, Rollback, Permuted, DropEnd, PathPushed, PathJoins, Replay, Linked, SoundBoundary;
    RollbackTracks(s, f, top);
    TracksReplay(s, top);
    PathLists(s.cur, f, p);
    PermutedSame(s.books.forum.joined[p], Replay(s.cur).value.books.forum.joined[p]);
    var all := PathPushed(s.cur, f, p) + s.books.forum.joined[p];
    var rest := Replay(f).value.books.forum.joined[p];
    DroppedIff(all, PathJoins(s.cur, f, p), rest);
    ReplayBoundary(f);
    JoinedNoDup(Replay(f).value.books.forum, p);
    PermutedIff(Rollback(s, Height(f)).books.forum.joined[p], rest);
  }

  lemma JoinedNoDup(f: Forum, p: Pubkey)
    requires Linked(f) && p in f.joined
    ensures NoDup(f.joined[p])
  {
    assert JoinedListOk(f, p);
  }

  /** Rolling back brings the joined lists back, as multisets, if and only if what is popped is what was joined. */
  lemma RollbackFaithfulIff(s: State, f: Block, top: nat)
    requires Faithful(s, top) && IsAncestor(f, s.cur) && InReach(Height(f), top)
    ensures Faithful(Rollback(s, Height(f)), top) <==> JoinedBack(s, f)
  {
    RollbackTracks(s, f, top);
    TracksReplay(s, top);
    hide Tracks, Rollback, Permuted, BackFor, Replay;
    forall p | p in Replay(f).value.books.forum.joined
      ensures p in s.books.forum.joined && p in Rollback(s, Height(f)).books.forum.joined
      ensures Permuted(Rollback(s, Height(f)).books.forum.joined[p], Replay(f).value.books.forum.joined[p]) <==>
                BackFor(s.books.forum.joined[p], s.cur, f, p)
    {
      FaithfulHere(s, top);
      BackIff(s, f, top, p);
    }
  }

  lemma FaithfulHere(s: State, top: nat)
    requires Faithful(s, top)
    ensures Tracks(s, top)
  {
  }

  /** The same for a single block. */
  lemma UndoFaithfulIff(s: State, top: nat)
    requires Faithful(s, top) && s.cur.Block? && InReach(Height(s.cur.parent), top)
    ensures IsAncestor(s.cur.parent, s.cur)
    ensures Tracks(UndoBlock(s), top) && UndoBlock(s).cur == s.cur.parent
    ensures Faithful(UndoBlock(s), top) <==> JoinedBack(s, s.cur.parent)
  {
    hide Faithful, Tracks, UndoBlock, CanUndo, JoinedBack;
    FaithfulHere(s, top);
    UndoTracks(s, top);
    RollbackFaithfulIff(s, s.cur.parent, top);
    assert Rollback(s, Height(s.cur.parent)) == Rollback(UndoBlock(s), Height(s.cur.parent));
    assert Rollback(UndoBlock(s), Height(s.cur.parent)) == UndoBlock(s);
  }

  // ---- switch_to_most_difficult

  lemma {:induction false} ApplyBlocksFaithful(s: State, t: Block, top: nat)
    requires Faithful(s, top) && IsAncestor(s.cur, t)
    ensures ApplyBlocks(s, PathFrom(s.cur, t)).Some? <==> Replay(t).Some?
    ensures Replay(t).Some? ==>
              && ApplyBlocks(s, PathFrom(s.cur, t)).value.cur == t
              && Faithful(ApplyBlocks(s, PathFrom(s.cur, t)).value, Max(top, Height(t)))
    decreases t
  {
    hide ApplyBlock, BlockOk, UndoOk, IndexOk, RewardsOk, BooksAlike, JoinedSame;
    if t == s.cur {
    } else {
      hide Faithful;
      ApplyBlocksFaithful(s, t.parent, top);
      var p := PathFrom(s.cur, t.parent);
      assert PathFrom(s.cur, t)[..|p|] == p;
      ReplayOfParent(t);
      if Replay(t.parent).Some? {
        var m := ApplyBlocks(s, p).value;
        ApplyFaithful(m, t, Max(top, Height(t.parent)));
        AppliedCur(m, t);
      }
    }
  }

  lemma ReplayOfParent(t: Block)
    requires t.Block?
    ensures Replay(t).Some? ==> Replay(t.parent).Some?
  {
  }

  /** A branch switch whose fork is in reach ends in the ledger start rebuilds for the target, and it succeeds exactly
      when start accepts the target's branch, provided the rollback brings the joined lists back. */
  lemma SwitchFaithful(s: State, fork: Block, to: Block, top: nat)
    requires Faithful(s, top) && IsFork(fork, s.cur, to) && InReach(Height(fork), top)
    requires JoinedBack(s, fork)
    ensures Switched(s, fork, PathFrom(fork, to)).Some? <==> Replay(to).Some?
    ensures Replay(to).Some? ==>
              && Switched(s, fork, PathFrom(fork, to)).value.cur == to
              && Faithful(Switched(s, fork, PathFrom(fork, to)).value, Max(top, Height(to)))
  {
    hide Faithful, Tracks, Rollback, ApplyBlocks, JoinedBack;
    FaithfulHere(s, top);
    RollbackTracks(s, fork, top);
    RollbackFaithfulIff(s, fork, top);
    ApplyBlocksFaithful(Rollback(s, Height(fork)), to, top);
  }

  // ---- What start rebuilds

  lemma InitialFaithful()
    ensures Faithful(INITIAL, 0)
  {
    FaithfulParts(INITIAL, 0);
    hide Sound, FreshIds, IdMap, TopicIds, LiveFrom, Linked, BooksSim;
    InitialBoundary();
    assert Replay(Genesis) == Some(INITIAL);
    BoundaryInv(INITIAL);
    SimRefl(INITIAL.books, 0);
    InitialLogs();
    hide Faithful, BooksAlike, Inv, INITIAL;
  }

  lemma InitialLogs()
    ensures IndexOk(INITIAL) && RewardsOk(INITIAL, RewardOf) && UndoOk(INITIAL, 0, LogOf)
  {
  }

  /** Every ledger start rebuilds is faithful. */
  lemma {:induction false} ReplayFaithful(b: Block)
    requires Replay(b).Some?
    ensures Replay(b).value.cur == b && Faithful(Replay(b).value, Height(b))
  {
    hide Faithful, BlockOk, ApplyBlock;
    if b.Genesis? {
      InitialFaithful();
    } else {
      ReplayFaithful(b.parent);
      ApplyFaithful(Replay(b.parent).value, b, Height(b.parent));
      AppliedCur(Replay(b.parent).value, b);
    }
  }

  /** What tracking means for each part of the ledger. */
  lemma TracksMeans(t: State, top: nat)
    requires Tracks(t, top)
    ensures var r := Replay(t.cur).value;
            && t.books.reg == r.books.reg && t.books.bal == r.books.bal && t.books.txMap == r.books.txMap
            && t.books.forum.topics == r.books.forum.topics && t.books.forum.queue == r.books.forum.queue
            && t.books.forum.owned == r.books.forum.owned
            && t.byHeight == r.byHeight && t.inMain == r.inMain
  {
    hide SoundBoundary, Linked, UndoOk, RewardsOk, IndexOk, Replay;
    ReplayBoundary(t.cur);
    SameHeights(t, Replay(t.cur).value);
    SameMarks(t, Replay(t.cur).value);
  }

  lemma SameMarks(s: State, r: State)
    requires IndexOk(s) && SoundBoundary(r) && r.cur == s.cur
    ensures s.inMain == r.inMain
  {
    hide Sound, LiveFrom, FreshIds, IdMap, TopicIds;
    SameIndex(s, r);
  }

  lemma FaithfulMeans(t: State, top: nat)
    requires Faithful(t, top)
    ensures var r := Replay(t.cur).value;
            && t.books.reg == r.books.reg && t.books.bal == r.books.bal && t.books.txMap == r.books.txMap
            && t.books.forum.topics == r.books.forum.topics && t.books.forum.queue == r.books.forum.queue
            && t.books.forum.owned == r.books.forum.owned
            && t.byHeight == r.byHeight && t.inMain == r.inMain
            && forall p :: p in r.books.forum.joined ==>
                 p in t.books.forum.joined
                 && multiset(t.books.forum.joined[p]) == multiset(r.books.forum.joined[p])
  {
    TracksMeans(t, top);
    hide Tracks, Permuted, Replay;
    var r := Replay(t.cur).value;
    forall p | p in r.books.forum.joined
      ensures p in t.books.forum.joined && multiset(t.books.forum.joined[p]) == multiset(r.books.forum.joined[p])
    {
      PermutedSame(t.books.forum.joined[p], r.books.forum.joined[p]);
    }
  }
}
