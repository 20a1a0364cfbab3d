/** Whole runs of mined blocks, speculation and branch switches. */
module Runs {
  import opened Lists
  import opened Chain
  import opened Books
  import opened Inverse
  import opened Expiry
  import opened Sim
  import opened Blocks
  import opened Replayed
  import opened UndoLogs
  import opened Fidelity
  import opened Rollbacks
  import opened Stripped
  import opened Bare
  import opened Cores
  import opened Membership

  // ---- What start rebuilds has its core and its members in order

  lemma InitialSteady()
    ensures Steady(INITIAL, 0)
  {
    hide INITIAL, BareBoundary, StripState, Strip, UndoOk, FitState;
    InitialIsBare();
    InitialParts();
    StripParts(INITIAL);
  }

  lemma InitialParts()
    ensures INITIAL.cur == Genesis && BareReplay(Genesis) == Some(INITIAL)
    ensures IndexOk(INITIAL) && RewardsOk(INITIAL, BareMark) && UndoOk(INITIAL, 0, BareLog)
    ensures FitState(INITIAL)
  {
  }

  lemma {:induction false} ReplaySteady(b: Block)
    requires Replay(b).Some?
    ensures Replay(b).value.cur == b && Steady(Replay(b).value, Height(b))
  {
    hide Steady, BlockOk, ApplyBlock, INITIAL;
    if b.Genesis? {
      InitialSteady();
      InitialParts();
    } else {
      ReplaySteady(b.parent);
      ReplayStep(b);
      SteadyApply(Replay(b.parent).value, b, Height(b.parent));
      AppliedCur(Replay(b.parent).value, b);
    }
  }

  /** What the undo log and the mark of a block hold, with and without joined lists and members. */
  lemma BareEntries(c: Block)
    requires c.Block? && Replay(c).Some?
    ensures BareMark(c) == RewardOf(c)
    ensures BareLog(c) == StripLog(LogOf(c)) && FitLog(LogOf(c))
  {
    hide BlockOk, ApplyBlock, StripState, BareBoundary, SoundBoundary, BlockRewarded, BareRewarded, NextBooks,
         ExpiredLog, StripLog, FitLog, FitLogs, FitForum, Core, Strip, BareOk, BareBlock, Linked;
    ReplayStep(c);
    var s := Replay(c.parent).value;
    ReplayIsBare(c.parent);
    ReplaySteady(c.parent);
    hide Replay, BareReplay;
    BareReplayed(c.parent);
    BareSound(StripState(s));
    StripBlock(s, c);
    FitExpire(s.books.forum, Height(c));
    StripExpire(s.books.forum, Height(c));
    StripParts(s);
    StripForums(s.books);
  }

  lemma StrippedEntries(m: map<nat, seq<Expired>>, cur: Block, top: nat)
    requires Replay(cur).Some? && TopicLogOk(m, cur, top, LogOf)
    ensures TopicLogOk(StripLogs(m), cur, top, BareLog) && FitLogs(m)
  {
    hide Replay, LogOf, BareLog, StripLog, FitLog, RewardOf, BareMark;
    forall n: nat | n in m ensures TopicEntryOk(StripLog(m[n]), cur, n, BareLog) && FitLog(m[n]) {
      assert TopicEntryOk(m[n], cur, n, LogOf);
      var c := AncestorAt(cur, n + TOPIC_LIFE_TIME + 1);
      ReplayPrefix(c, cur);
      BareEntries(c);
    }
  }

  lemma BareMarks(s: State)
    requires Replay(s.cur).Some? && RewardsOk(s, RewardOf)
    ensures RewardsOk(s, BareMark)
  {
    hide Replay, RewardOf, BareMark;
    forall a: Block | a.Block? && IsAncestor(a, s.cur) ensures a in s.rewarded && s.rewarded[a] == BareMark(a) {
      ReplayPrefix(a, s.cur);
      BareEntries(a);
    }
  }

  /** A ledger that tracks its replay is steady. */
  lemma TracksSteady(s: State, top: nat)
    requires Tracks(s, top)
    ensures Steady(s, top)
  {
    hide Replay, BareReplay, Strip, StripState, IndexOk, RewardsOk, TopicLogOk, TxLogOk, FitForum, FitLogs, BooksAlike,
         Core;
    TracksCore(s, top);
    ReplaySteady(s.cur);
    SameTopics(s.books, Replay(s.cur).value.books);
    StrippedEntries(s.undoTopics, s.cur, top);
  }

  lemma SameTopics(s: Books, r: Books)
    requires BooksAlike(s, r)
    ensures s.forum.topics == r.forum.topics
    ensures FitForum(r.forum) ==> FitForum(s.forum)
  {
  }

  lemma TracksCore(s: State, top: nat)
    requires Tracks(s, top)
    ensures Core(s, top)
  {
    hide Replay, BareReplay, Strip, StripState, IndexOk, RewardsOk, TopicLogOk, TxLogOk, BooksAlike, StripLogs;
    ReplayIsBare(s.cur);
    StripParts(Replay(s.cur).value);
    StripParts(s);
    AlikeStripped(s.books, Replay(s.cur).value.books);
    BareMarks(s);
    StrippedEntries(s.undoTopics, s.cur, top);
  }

  // ---- Runs

  /** `Speculate` is mine_tx with the transactions that it selects. */
  datatype Command =
    | Mine(block: Block)
    | Speculate(txs: seq<Tx>)
    | SwitchTo(fork: Block, target: Block)

  /** The next ledger; None when the command is not possible or the node exits because a block does not check. */
  ghost function Exec(s: State, c: Command): Option<State> {
    match c
    case Mine(b) => if BlockOk(s, b) then Some(ApplyBlock(s, b)) else None
    case Speculate(txs) =>
      if TxsFit(NextBooks(s), txs, Height(s.cur) + 1, false) then Some(Tried(s, txs)) else None
    case SwitchTo(fork, target) =>
      if IsFork(fork, s.cur, target) then Switched(s, fork, PathFrom(fork, target)) else None
  }

  /** A switch finds the undo entries it reads. */
  ghost predicate Finds(s: State, c: Command) {
    c.SwitchTo? ==> IsAncestor(c.fork, s.cur) && Retains(s, Height(c.fork))
  }

  /** Every command of the run finds its undo entries and the node does not exit. */
  ghost predicate RunsTo(s: State, cs: seq<Command>, t: State)
    decreases |cs|
  {
    if cs == [] then t == s
    else Finds(s, cs[0]) && Exec(s, cs[0]).Some? && RunsTo(Exec(s, cs[0]).value, cs[1..], t)
  }

  /** Rolling back brings the joined lists back. */
  ghost predicate BringsBack(s: State, c: Command) {
    c.SwitchTo? ==> IsAncestor(c.fork, s.cur) && JoinedBack(s, c.fork)
  }

  /** Every switch of the run does. */
  ghost predicate AllBringBack(s: State, cs: seq<Command>)
    decreases |cs|
  {
    cs == [] || (BringsBack(s, cs[0]) && (Exec(s, cs[0]).Some? ==> AllBringBack(Exec(s, cs[0]).value, cs[1..])))
  }

  /** The highest block ever prepared, after one more command. */
  function NextTop(s: State, top: nat, c: Command): nat {
    match c
    case Mine(b) => Max(top, Height(b))
    case Speculate(_) => Max(top, Height(s.cur) + 1)
    case SwitchTo(_, target) => Max(top, Height(target))
  }

  lemma SteadyReach(s: State, top: nat, f: Block)
    requires Steady(s, top) && IsAncestor(f, s.cur) && Retains(s, Height(f))
    ensures InReach(Height(f), top)
  {
    hide Core, FitState, Retains;
    AncestorHeight(f, s.cur);
    RetainsIff(s, top, Height(f));
  }

  lemma ExecSteady(s: State, top: nat, c: Command)
    requires Steady(s, top) && Finds(s, c) && Exec(s, c).Some?
    ensures Steady(Exec(s, c).value, NextTop(s, top, c))
  {
    hide Steady, Switched, Tried, ApplyBlock, Retains, BlockOk, TxsFit, NextBooks;
    match c
    case Mine(b) =>
      SteadyApply(s, b, top);
    case Speculate(txs) => SteadyTried(s, txs, top);
    case SwitchTo(fork, target) =>
      SteadyReach(s, top, fork);
      SteadySwitch(s, fork, target, top);
  }

  /** After any run that finds its undo entries, whatever its switches do to the joined lists, all but these lists
      and the members of topics is what start, without its limit on joined topics, rebuilds for the branch it is on. */
  lemma {:induction false} RunSteady(s: State, top: nat, cs: seq<Command>, t: State) returns (last: nat)
    requires Steady(s, top) && RunsTo(s, cs, t)
    ensures Steady(t, last)
    decreases |cs|
  {
    hide Steady, Finds, Exec;
    last := top;
    if cs != [] {
      ExecSteady(s, top, cs[0]);
      last := RunSteady(Exec(s, cs[0]).value, NextTop(s, top, cs[0]), cs[1..], t);
    }
  }

  lemma ExecFaithful(s: State, top: nat, c: Command)
    requires Faithful(s, top) && Finds(s, c) && BringsBack(s, c) && Exec(s, c).Some?
    ensures Faithful(Exec(s, c).value, NextTop(s, top, c))
  {
    hide Faithful, Tracks, Steady, Switched, Tried, Speculated, ApplyBlock, Retains, JoinedBack, BlockOk, Replay,
         TxsFit, NextBooks, Boundary;
    FaithfulHere(s, top);
    match c
    case Mine(b) =>
      OnTop(s, b);
      ApplyFaithful(s, b, top);
    case Speculate(txs) =>
      FaithfulBoundary(s, top);
      TriedIsSpeculated(s, txs);
      SpeculateFaithful(s, top);
    case SwitchTo(fork, target) =>
      TracksSteady(s, top);
      SteadyReach(s, top, fork);
      SwitchFaithful(s, fork, target, top);
  }

  /** If each switch brings the joined lists back, the whole ledger is the one start would rebuild. */
  lemma {:induction false} RunFaithful(s: State, top: nat, cs: seq<Command>, t: State) returns (last: nat)
    requires Faithful(s, top) && RunsTo(s, cs, t) && AllBringBack(s, cs)
    ensures Faithful(t, last)
    decreases |cs|
  {
    hide Faithful, Finds, Exec, BringsBack;
    last := top;
    if cs != [] {
      ExecFaithful(s, top, cs[0]);
      last := RunFaithful(Exec(s, cs[0]).value, NextTop(s, top, cs[0]), cs[1..], t);
    }
  }

  /** Mining the blocks of a branch, one after the other. */
  function MineAll(b: Block): seq<Command> {
    if b.Genesis? then [] else MineAll(b.parent) + [Mine(b)]
  }

  lemma {:induction false} RunsAppend(s: State, cs: seq<Command>, t: State, c: Command)
    requires RunsTo(s, cs, t) && Finds(t, c) && Exec(t, c).Some?
    ensures RunsTo(s, cs + [c], Exec(t, c).value)
    decreases |cs|
  {
    hide Finds, Exec;
    if cs == [] {
      assert cs + [c] == [c] && [c][1..] == [];
    } else {
      assert (cs + [c])[0] == cs[0] && (cs + [c])[1..] == cs[1..] + [c];
      RunsAppend(Exec(s, cs[0]).value, cs[1..], t, c);
    }
  }

  /** A replay is a run that only mines. */
  lemma {:induction false} ReplayIsRun(b: Block)
    requires Replay(b).Some?
    ensures RunsTo(INITIAL, MineAll(b), Replay(b).value)
  {
    hide INITIAL, BlockOk, ApplyBlock;
    if b.Block? {
      ReplayIsRun(b.parent);
      RunsAppend(INITIAL, MineAll(b.parent), Replay(b.parent).value, Mine(b));
    }
  }

  // ---- What this means for each part of the ledger

  /** The two topics agree but for their members. */
  predicate SameButMembers(t: Topic, u: Topic) {
    t == u.(members := t.members)
  }

  /** For every run from genesis that finds its undo entries: start, but for its limit on joined topics, accepts the
      branch it ends on; if it accepts it with that limit, the ledger agrees with what it rebuilds in everything but
      joined lists and members. */
  lemma RunFromGenesis(cs: seq<Command>, t: State)
    requires RunsTo(INITIAL, cs, t)
    ensures BareReplay(t.cur).Some?
    ensures Replay(t.cur).Some? ==>
              var r := Replay(t.cur).value;
              && t.books.reg == r.books.reg
              && t.books.bal == r.books.bal
              && t.books.txMap == r.books.txMap
              && (forall k :: k in t.books.forum.topics <==> k in r.books.forum.topics)
              && (forall k :: k in r.books.forum.topics ==>
                    SameButMembers(t.books.forum.topics[k], r.books.forum.topics[k]))
              && t.books.forum.queue == r.books.forum.queue
              && t.books.forum.owned == r.books.forum.owned
              && t.byHeight == r.byHeight && t.inMain == r.inMain
  {
    hide RunsTo, INITIAL, Replay, BareReplay, FitState, IndexOk, UndoOk, RewardsOk, Strip, StripState;
    InitialSteady();
    var last := RunSteady(INITIAL, 0, cs, t);
    if Replay(t.cur).Some? {
      ReplaySteady(t.cur);
      var r := Replay(t.cur).value;
      SameBooks(t.books, r.books);
      SameIndex(t, r);
    }
  }

  lemma SameBooks(s: Books, r: Books)
    requires Strip(s) == Strip(r)
    ensures s.reg == r.reg && s.bal == r.bal && s.txMap == r.txMap
    ensures forall k :: k in s.forum.topics <==> k in r.forum.topics
    ensures forall k :: k in r.forum.topics ==> SameButMembers(s.forum.topics[k], r.forum.topics[k])
    ensures s.forum.queue == r.forum.queue && s.forum.owned == r.forum.owned
  {
    var f, g := s.forum, r.forum;
    assert StripTopics(f.topics) == StripTopics(g.topics);
    forall k ensures k in f.topics <==> k in g.topics {
      assert k in f.topics <==> k in StripTopics(f.topics);
    }
    forall k | k in g.topics ensures SameButMembers(f.topics[k], g.topics[k]) {
      assert StripTopics(f.topics)[k] == StripTopics(g.topics)[k];
    }
  }

  /** If each switch brings the joined lists back, start accepts the branch, the members agree, too, and each joined
      list holds the same topics. */
  lemma JoinedFromGenesis(cs: seq<Command>, t: State)
    requires RunsTo(INITIAL, cs, t) && AllBringBack(INITIAL, cs)
    ensures Replay(t.cur).Some?
    ensures t.books.forum.topics == Replay(t.cur).value.books.forum.topics
    ensures forall p :: p in Replay(t.cur).value.books.forum.joined ==>
              && p in t.books.forum.joined
              && multiset(t.books.forum.joined[p]) == multiset(Replay(t.cur).value.books.forum.joined[p])
  {
    hide RunsTo, AllBringBack, INITIAL, Tracks, JoinedSame, Replay;
    InitialFaithful();
    var last := RunFaithful(INITIAL, 0, cs, t);
    FaithfulMeans(t, last);
    FaithfulReplay(t, last);
  }

  lemma FaithfulReplay(t: State, top: nat)
    requires Faithful(t, top)
    ensures Replay(t.cur).Some?
  {
  }
}
