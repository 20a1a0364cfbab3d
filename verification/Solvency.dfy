/** Coins whatever joined lists and members are: every steady ledger holds the same total, and none of it is
    negative. */
module Solvency {
  import opened Chain
  import opened Books
  import opened Invariant
  import opened Blocks
  import opened Replayed
  import opened UndoLogs
  import opened Stripped
  import opened Bare
  import opened Cores
  import opened Membership
  import opened Runs
  import opened Conservation

  lemma CoinsStripped(b: Books)
    ensures Total(Strip(b)) == Total(b)
    ensures NonNegative(Strip(b)) <==> NonNegative(b)
    ensures FundsOk(Strip(b).forum) <==> FundsOk(b.forum)
  {
    hide TopicFunds, SumTopics;
    var d := Strip(b);
    assert forall k :: k in b.forum.topics ==> d.forum.topics[k] == StripTopic(b.forum.topics[k]);
    SumTopicsSame(b.forum.queue, d.forum.topics, b.forum.topics);
    forall k | k in b.forum.topics ensures TopicFunds(d.forum.topics[k]) <==> TopicFunds(b.forum.topics[k]) {
      FundsStripped(b.forum.topics[k]);
    }
  }

  lemma FundsStripped(t: Topic)
    ensures TopicFunds(StripTopic(t)) <==> TopicFunds(t)
  {
  }

  lemma FundedStrip(b: Books, h: nat)
    requires Funded(b, h)
    ensures Funded(Strip(b), h)
  {
    hide Sound, NonNegative, FundsOk, Total, Strip;
    StripSound(b, h);
    CoinsStripped(b);
  }

  lemma FundedFrom(b: Books, h: nat)
    requires Funded(Strip(b), h) && FitForum(b.forum)
    ensures Funded(b, h)
  {
    hide Sound, NonNegative, FundsOk, Total, Strip, FitForum;
    SoundFrom(b, h);
    CoinsStripped(b);
  }

  lemma {:induction false} FundedBareTxs(p: Books, txs: seq<Tx>, h: nat, index: bool)
    requires Funded(p, h) && BareFit(p, txs, h, index)
    ensures Funded(BareTxs(p, txs, h, index), h)
    ensures Total(BareTxs(p, txs, h, index)) == Total(p) - |txs|
    decreases |txs|
  {
    hide Funded, TxOk, FormatOk, ApplyTx, Total, Strip;
    if txs != [] {
      var init := txs[..|txs| - 1];
      var c := BareTxs(p, init, h, index);
      FundedBareTxs(p, init, h, index);
      FundedTx(c, txs[|txs| - 1], h, index);
      FundedStrip(ApplyTx(c, txs[|txs| - 1], h, index), h);
      CoinsStripped(ApplyTx(c, txs[|txs| - 1], h, index));
    }
  }

  /** The miner's pay gives back to the accounts what the fees took out of them. */
  lemma FundedPaid(x: Books, miner: Pubkey, n: nat, h: nat)
    requires Funded(x, h) && miner in x.bal && Total(x) + n <= TOTAL
    ensures Funded(x.(bal := PayMiner(x.bal, miner, n)), h)
    ensures Total(x.(bal := PayMiner(x.bal, miner, n))) == Total(x) + n
  {
    hide Sound, SumTopics, FundsOk, PayMiner;
    HasReserve(x, h);
    PayMinerTotal(x.bal, miner, n);
    PayMinerKeys(x.bal, miner, n);
    BalancesSound(x, h, PayMiner(x.bal, miner, n));
  }

  lemma BareStepFunded(r: State, b: Block)
    requires BareBoundary(r) && BareOk(r, b) && Funded(r.books, Height(r.cur)) && Total(r.books) == TOTAL
    ensures Funded(BareBlock(r, b).books, Height(b)) && Total(BareBlock(r, b).books) == TOTAL
  {
    hide SoundBoundary, Strip, Funded, Total, BareOk, BareBlock, NextBooks, BareFit, BareTxs, LiveFrom, PayMiner, Sound;
    var p, h := NextBooks(r), Height(b);
    BareOkShape(r, b);
    BareBooksAre(r, b);
    FundedPrepare(r);
    PreparedLive(r);
    NextTotal(r);
    FundedBareTxs(p, b.txs, h, true);
    FundedSound(p, h);
    BareTxsSound(p, b.txs, h, true, Oldest(h));
    HasBalanceIn(BareTxs(p, b.txs, h, true), h, b.miner);
    FundedPaid(BareTxs(p, b.txs, h, true), b.miner, |b.txs|, h);
  }

  lemma NextTotal(r: State)
    requires SoundBoundary(r) && Funded(r.books, Height(r.cur))
    ensures Total(NextBooks(r)) == Total(r.books)
  {
    hide Sound, LiveFrom, FreshIds, IdMap, TopicIds, IndexOk, Total, NonNegative, FundsOk, PrepareBooks, LeavingIds;
    SoundOlder(r.books, Height(r.cur), Height(r.cur) + 1);
    PrepareTotal(r.books, Height(r.cur) + 1, LeavingIds(r.byHeight, Height(r.cur) + 1));
  }

  lemma {:induction false} BareFunded(b: Block)
    requires BareReplay(b).Some?
    ensures Funded(BareReplay(b).value.books, Height(b)) && Total(BareReplay(b).value.books) == TOTAL
  {
    hide BareBoundary, Funded, Total, BareOk, BareBlock, INITIAL;
    if b.Genesis? {
      InitialFunded();
      InitialTotal();
    } else {
      BareFunded(b.parent);
      BareReplayed(b.parent);
      BareStepFunded(BareReplay(b.parent).value, b);
    }
  }

  /** What a steady ledger offers to the methods that change it. */
  lemma SteadyFunded(s: State, top: nat)
    requires Steady(s, top)
    ensures SoundBoundary(s) && Funded(s.books, Height(s.cur))
    ensures Total(s.books) == TOTAL
  {
    hide BareReplay, Strip, IndexOk, UndoOk, RewardsOk, Funded, Total, FitForum, FitLogs, StripState, SoundBoundary;
    SteadyBoundary(s, top);
    BareFunded(s.cur);
    FundedFrom(s.books, Height(s.cur));
    CoinsStripped(s.books);
  }

  /** After every run from genesis that finds its undo entries, whatever it does to the joined lists, accounts and live
      topics hold exactly 10^12 coins, none of them negative. */
  lemma RunTotal(cs: seq<Command>, t: State)
    requires RunsTo(INITIAL, cs, t)
    ensures Total(t.books) == TOTAL && NonNegative(t.books)
  {
    hide RunsTo, INITIAL, Steady, Total, NonNegative, Sound, FundsOk, SoundBoundary;
    InitialSteady();
    var last := RunSteady(INITIAL, 0, cs, t);
    SteadyFunded(t, last);
  }
}
