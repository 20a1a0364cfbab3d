/** No transaction is ever applied twice on a main chain, although old ids are forgotten. */
module NoReplay {
  import opened Lists
  import opened Chain
  import opened Books
  import opened Inverse
  import opened Invariant
  import opened Blocks
  import opened Replayed

  /** How many blocks back the same transaction can pass the block-id window again. */
  const WINDOW: nat := 200

  /** Every transaction of the branch was within its block-id window. */
  ghost predicate AllInTime(b: Block) {
    b.Genesis? || (AllInTime(b.parent) && InTime(b.txs, Height(b)))
  }

  lemma {:induction false} ReplayInTime(b: Block)
    requires Replay(b).Some?
    ensures AllInTime(b)
  {
    hide InTime, TxsFit, HeaderOk, PrepareOk, PrepareBooks, ApplyBlock;
    if b.Block? {
      ReplayInTime(b.parent);
    }
  }

  /** A transaction that could enter block `h` is in the whole branch only if it is in the last `WINDOW` blocks:
      forgetting older ids, or exporting only the last `WINDOW` blocks' ids, loses nothing. */
  lemma {:induction false} OnlyRecent(b: Block, tx: Tx, h: nat, lo: int)
    requires AllInTime(b) && InWindow(tx, h)
    requires lo <= h - WINDOW
    ensures Hash(tx) in IdMap(b, 0) <==> Hash(tx) in IdMap(b, lo)
  {
    if b.Block? {
      OnlyRecent(b.parent, tx, h, lo);
      assert Hash(tx) in Ids(b.txs) ==> Height(b) >= lo;
      if Height(b) < lo {
        IdMapAbove(b, lo);
      }
    }
  }

  lemma IdMapAbove(b: Block, lo: int)
    requires Height(b) < lo
    ensures IdMap(b, lo) == map[]
  {
  }

  lemma {:induction false} FreshWhole(b: Block)
    requires Replay(b).Some? && AllInTime(b)
    ensures FreshIds(b, 0)
  {
    hide InWindow, BlockOk, ApplyBlock;
    if b.Block? {
      FreshWhole(b.parent);
      FreshAtApply(b);
      forall k | k in Ids(b.txs) ensures k !in IdMap(b.parent, 0) {
        var i :| 0 <= i < |b.txs| && Hash(b.txs[i]) == k;
        OnlyRecent(b.parent, b.txs[i], Height(b), Height(b) - TOPIC_LIFE_TIME);
      }
    }
  }

  /** At apply time the ids of a block are new with respect to the blocks the id map still covers. */
  lemma FreshAtApply(b: Block)
    requires b.Block? && Replay(b).Some?
    ensures NoDup(Ids(b.txs))
    ensures forall k :: k in Ids(b.txs) ==> k !in IdMap(b.parent, Height(b) - TOPIC_LIFE_TIME)
  {
    hide Sound, Linked, LiveFrom, IndexOk, IdMap, TopicIds, ApplyBlock, BlockOk, Ids;
    ReplayBoundary(b);
    FreshUnfold(b, Height(b) - TOPIC_LIFE_TIME);
  }

  lemma FreshUnfold(b: Block, lo: int)
    requires b.Block? && FreshIds(b, lo) && lo <= Height(b)
    ensures NoDup(Ids(b.txs)) && forall k :: k in Ids(b.txs) ==> k !in IdMap(b.parent, lo)
  {
  }

  /** All transactions of a branch, oldest block first. */
  ghost function AllTxs(b: Block): seq<Tx> {
    if b.Genesis? then [] else AllTxs(b.parent) + b.txs
  }

  lemma {:induction false} AllTxsIds(b: Block)
    ensures forall tx :: tx in AllTxs(b) <==> Hash(tx) in IdMap(b, 0)
  {
    if b.Block? {
      AllTxsIds(b.parent);
      forall tx ensures tx in b.txs <==> Hash(tx) in Ids(b.txs) {
        if Hash(tx) in Ids(b.txs) {
          var i :| 0 <= i < |b.txs| && Ids(b.txs)[i] == Hash(tx);
          assert b.txs[i] == tx;
        }
        if tx in b.txs {
          var i :| 0 <= i < |b.txs| && b.txs[i] == tx;
          assert Ids(b.txs)[i] == Hash(tx);
        }
      }
    }
  }

  lemma {:induction false} FreshNoDup(b: Block)
    requires FreshIds(b, 0)
    ensures NoDup(AllTxs(b))
  {
    if b.Block? {
      FreshNoDup(b.parent);
      AllTxsIds(b.parent);
      var p, q := AllTxs(b.parent), b.txs;
      assert NoDup(q) by {
        forall i, j | 0 <= i < j < |q| ensures q[i] != q[j] {
          assert Ids(q)[i] != Ids(q)[j];
        }
      }
      forall i, j | 0 <= i < j < |p + q| ensures (p + q)[i] != (p + q)[j] {
        if i < |p| <= j {
          assert p[i] in AllTxs(b.parent);
          assert Ids(q)[j - |p|] in Ids(q);
        }
      }
    }
  }

  /** No transaction occurs twice on a branch that start accepts, however long the branch is. */
  lemma NoTransactionTwice(b: Block)
    requires Replay(b).Some?
    ensures NoDup(AllTxs(b))
  {
    ReplayInTime(b);
    FreshWhole(b);
    FreshNoDup(b);
  }
}
