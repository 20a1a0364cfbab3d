/** Account ids: m_account_by_id lists the reserve fund and every account once, so that check_balance counts
    every coin once. */
module Census {
  import opened Lists
  import opened Sums
  import opened Chain
  import opened Books
  import opened Inverse
  import opened Invariant
  import opened Blocks
  import opened Stripped
  import opened Bare

  /** Ids run from 0, the reserve fund, to the last one given out, and the two indexes are inverse. */
  ghost predicate IdsOk(reg: Registry) {
    && (forall i: nat :: i in reg.byId <==> i <= reg.curId)
    && 0 in reg.byId && reg.byId[0] == RESERVE
    && (forall i :: i in reg.byId && i > 0 ==> reg.byId[i] in reg.accounts && reg.accounts[reg.byId[i]].id == i)
    && (forall p :: p in reg.accounts ==> reg.accounts[p].id > 0
                                          && reg.accounts[p].id in reg.byId && reg.byId[reg.accounts[p].id] == p)
  }

  /** Every account's name is taken, no two accounts share one, and nobody has the reserve fund's. */
  ghost predicate NamesOk(reg: Registry) {
    && RESERVE_NAME in reg.names
    && (forall p :: p in reg.accounts ==> reg.accounts[p].name in reg.names && reg.accounts[p].name != RESERVE_NAME)
    && (forall p, q :: p in reg.accounts && q in reg.accounts && p != q ==>
          reg.accounts[p].name != reg.accounts[q].name)
  }

  lemma RegIdsKept(reg: Registry, tx: Tx, h: nat)
    requires IdsOk(reg) && (tx.body.TxReg? ==> tx.pubkey !in reg.accounts)
    ensures IdsOk(ApplyRegistry(reg, tx, h, true))
  {
  }

  lemma RegNamesKept(reg: Registry, tx: Tx, h: nat)
    requires NamesOk(reg) && (tx.body.TxReg? ==> tx.pubkey !in reg.accounts && tx.body.name !in reg.names)
    ensures NamesOk(ApplyRegistry(reg, tx, h, true))
  {
    hide RESERVE_NAME;
  }

  lemma {:induction false} IdsKept(b: Books, txs: seq<Tx>, h: nat)
    requires IdsOk(b.reg) && NamesOk(b.reg) && BareFit(b, txs, h, true)
    ensures IdsOk(BareTxs(b, txs, h, true).reg) && NamesOk(BareTxs(b, txs, h, true).reg)
    decreases |txs|
  {
    hide IdsOk, NamesOk, ApplyRegistry, ApplyMoney, ApplyForum, FormatOk, ForumOk, FeeDelta, StripForum;
    if txs != [] {
      var init := txs[..|txs| - 1];
      IdsKept(b, init, h);
      RegIdsKept(BareTxs(b, init, h, true).reg, txs[|txs| - 1], h);
      RegNamesKept(BareTxs(b, init, h, true).reg, txs[|txs| - 1], h);
    }
  }

  lemma {:induction false} BareIds(b: Block)
    requires BareReplay(b).Some?
    ensures IdsOk(BareReplay(b).value.books.reg) && NamesOk(BareReplay(b).value.books.reg)
  {
    hide IdsOk, NamesOk, BareFit, InTime, HeaderOk, PrepareOk, BareTxs, PrepareBooks, LogTopics, LogTxs;
    if b.Genesis? {
      InitialIds();
    } else {
      BareIds(b.parent);
      var s := BareReplay(b.parent).value;
      PreparedReg(s.books, Height(b), LeavingIds(s.byHeight, Height(b)));
      IdsKept(PrepareBooks(s.books, Height(b), LeavingIds(s.byHeight, Height(b))), b.txs, Height(b));
    }
  }

  /** Every registry that start rebuilds numbers its accounts without gaps or repetitions, and no two accounts
      have the same name. */
  lemma ReplayIds(b: Block)
    requires Replay(b).Some?
    ensures IdsOk(Replay(b).value.books.reg) && NamesOk(Replay(b).value.books.reg)
  {
    hide IdsOk, NamesOk, Replay, BareReplay, StripForum, StripLogs;
    ReplayIsBare(b);
    BareIds(b);
  }

  lemma InitialIds()
    ensures IdsOk(INITIAL.books.reg) && NamesOk(INITIAL.books.reg)
  {
    NamesDiffer();
    var reg := INITIAL.books.reg;
    assert reg.byId == map[0 := RESERVE, 1 := AUTHOR];
    assert reg.accounts == map[AUTHOR := Account(1, AUTHOR_NAME, 1, 0, None)];
    assert reg.curId == 1;
    hide AUTHOR, AUTHOR_NAME, RESERVE_NAME;
  }

  lemma NamesDiffer()
    ensures AUTHOR_NAME != RESERVE_NAME
  {
    assert |AUTHOR_NAME.base64| != |RESERVE_NAME.base64|;
  }

  lemma PreparedReg(b: Books, h: nat, ids: seq<Key>)
    ensures PrepareBooks(b, h, ids).reg == b.reg
  {
  }

  // ---- Adding up balances by id

  /** The balances by account id. */
  ghost function CoinsById(byId: map<nat, Pubkey>, bal: Balances): map<nat, int>
    requires forall i :: i in byId ==> byId[i] in bal
  {
    map i | i in byId :: bal[byId[i]]
  }

  lemma {:induction false} SumByKey(m: map<nat, int>, bal: Balances, keyOf: map<nat, Pubkey>, idOf: map<Pubkey, nat>)
    requires forall i :: i in m ==> i in keyOf && keyOf[i] in bal && m[i] == bal[keyOf[i]]
    requires forall i :: i in m ==> keyOf[i] in idOf && idOf[keyOf[i]] == i
    requires forall p :: p in bal ==> p in idOf && idOf[p] in m && keyOf[idOf[p]] == p
    ensures MapSum(m) == MapSum(bal)
    decreases |m|
  {
    hide MapSum;
    if m == map[] {
      assert bal == map[];
      SumNothing<nat>();
      SumNothing<Pubkey>();
    } else {
      var i :| i in m;
      SumOut(m, i);
      SumOut(bal, keyOf[i]);
      MapShrinks(m, i);
      SumByKey(m - {i}, bal - {keyOf[i]}, keyOf, idOf);
    }
  }

  lemma SumNothing<K>()
    ensures MapSum<K>(map[]) == 0
  {
  }

  /** Adding up by id adds up every balance once. */
  lemma CensusTotal(b: Books, h: nat)
    requires Sound(b, h) && IdsOk(b.reg)
    ensures forall i :: i in b.reg.byId ==> b.reg.byId[i] in b.bal
    ensures MapSum(CoinsById(b.reg.byId, b.bal)) == MapSum(b.bal)
  {
    hide MapSum, TopicsOk, QueueOk;
    forall i | i in b.reg.byId ensures b.reg.byId[i] in b.bal {
      if i > 0 {
        assert AccountOk(b, b.reg.byId[i]);
      }
    }
    var idOf := map p | p in b.bal :: if p == RESERVE then 0 else b.reg.accounts[p].id;
    SumByKey(CoinsById(b.reg.byId, b.bal), b.bal, b.reg.byId, idOf);
  }
}
