/** Blocks applied to and taken off the ledger, and the replay of a branch from genesis. */
module Blocks {
  import opened Lists
  import opened Chain
  import opened Books
  import opened Expiry

  /** An entry of m_rollback_txs: the height of the block whose ids were forgotten, and the ids. */
  datatype Forgotten = Forgotten(born: nat, ids: seq<Key>)

  datatype State = State(
    books: Books,
    undoTopics: map<nat, seq<Expired>>,
    undoTxs: map<nat, Forgotten>,
    cur: Block,
    byHeight: map<nat, Block>,
    inMain: set<Block>,
    rewarded: map<Block, bool>)

  const BLOCK_REWARD: nat := 5000
  const MAX_TXS: nat := 2000
  const TOTAL: nat := 1000000000000

  /** The undo entry that block `h` writes and that undoing block `h` reads. */
  function UndoKey(h: nat): nat
    requires h >= TOPIC_LIFE_TIME + 2
  {
    h - (TOPIC_LIFE_TIME + 1)
  }

  function Pruned<T>(m: map<nat, T>, h: nat): map<nat, T>
    requires h >= TOPIC_LIFE_TIME + 2
  {
    (if h > 2 * TOPIC_LIFE_TIME + 1 then m - {h - (2 * TOPIC_LIFE_TIME + 1)} else m) - {UndoKey(h)}
  }

  function Ids(txs: seq<Tx>): (ids: seq<Key>)
    ensures |ids| == |txs|
    ensures forall i :: 0 <= i < |txs| ==> ids[i] == Hash(txs[i])
  {
    seq(|txs|, i requires 0 <= i < |txs| => Hash(txs[i]))
  }

  function Txs(b: Block): seq<Tx> {
    if b.Genesis? then [] else b.txs
  }

  function Reversed<T>(q: seq<T>): (r: seq<T>)
    ensures |r| == |q|
    ensures forall i :: 0 <= i < |q| ==> r[i] == q[|q| - 1 - i]
  {
    seq(|q|, i requires 0 <= i < |q| => q[|q| - 1 - i])
  }

  function AddBal(m: Balances, who: Pubkey, v: int): Balances {
    m[who := (if who in m then m[who] else 0) + v]
  }

  // ---- proc_topic_expired and proc_tx_map

  function ExpireBooks(b: Books, h: nat): Books {
    if h < TOPIC_LIFE_TIME + 2 then b
    else b.(forum := Expire(b.forum, h), bal := AddBal(b.bal, RESERVE, Worth(ExpiredLog(b.forum, h))))
  }

  function Without(m: map<Key, nat>, ids: seq<Key>): map<Key, nat> {
    map k | k in m && k !in ids :: m[k]
  }

  function ForgetBooks(b: Books, h: nat, ids: seq<Key>): Books {
    if h < TOPIC_LIFE_TIME + 2 then b else b.(txMap := Without(b.txMap, ids))
  }

  /** The ids of the block that leaves the id map at block `h`. */
  function LeavingIds(byHeight: map<nat, Block>, h: nat): seq<Key> {
    if h >= TOPIC_LIFE_TIME + 2 && UndoKey(h) in byHeight then Ids(Txs(byHeight[UndoKey(h)])) else []
  }

  function LogPut<T>(m: map<nat, T>, h: nat, entry: T): map<nat, T> {
    if h < TOPIC_LIFE_TIME + 2 then m else Pruned(m, h)[UndoKey(h) := entry]
  }

  function LogTopics(m: map<nat, seq<Expired>>, f: Forum, h: nat): map<nat, seq<Expired>> {
    LogPut(m, h, ExpiredLog(f, h))
  }

  function Leaving(ids: seq<Key>, h: nat): Forgotten {
    Forgotten(if h < TOPIC_LIFE_TIME + 2 then 0 else UndoKey(h), Reversed(ids))
  }

  function LogTxs(m: map<nat, Forgotten>, ids: seq<Key>, h: nat): map<nat, Forgotten> {
    LogPut(m, h, Leaving(ids, h))
  }

  function PrepareBooks(b: Books, h: nat, ids: seq<Key>): Books {
    ForgetBooks(ExpireBooks(b, h), h, ids)
  }

  function Prepare(s: State, h: nat): State {
    s.(books := PrepareBooks(s.books, h, LeavingIds(s.byHeight, h)),
       undoTopics := LogTopics(s.undoTopics, s.books.forum, h),
       undoTxs := LogTxs(s.undoTxs, LeavingIds(s.byHeight, h), h))
  }

  /** Every erase from the id map finds its id. */
  predicate ForgetOk(m: map<Key, nat>, ids: seq<Key>) {
    NoDup(ids) && forall i :: 0 <= i < |ids| ==> ids[i] in m
  }

  predicate PrepareOk(s: State, h: nat) {
    (h >= TOPIC_LIFE_TIME + 2 ==> ExpireOk(s.books.forum, h)) && ForgetOk(s.books.txMap, LeavingIds(s.byHeight, h))
  }

  // ---- The transactions of a block

  function ApplyTxs(b: Books, txs: seq<Tx>, h: nat, index: bool): Books {
    if txs == [] then b else ApplyTx(ApplyTxs(b, txs[..|txs| - 1], h, index), txs[|txs| - 1], h, index)
  }

  /** Each transaction has the right format and passes every check against the ledger it meets. */
  predicate TxsFit(b: Books, txs: seq<Tx>, h: nat, index: bool) {
    txs == [] ||
    (&& TxsFit(b, txs[..|txs| - 1], h, index)
     && FormatOk(txs[|txs| - 1])
     && TxOk(ApplyTxs(b, txs[..|txs| - 1], h, index), txs[|txs| - 1]))
  }

  predicate InTime(txs: seq<Tx>, h: nat) {
    forall i :: 0 <= i < |txs| ==> InWindow(txs[i], h)
  }

  /** The checks on the transactions of block `h`. */
  predicate TxsOk(b: Books, txs: seq<Tx>, h: nat) {
    TxsFit(b, txs, h, true) && InTime(txs, h)
  }

  /** The reverse loop, last transaction first. */
  function UndoTxs(b: Books, txs: seq<Tx>, index: bool): Books
    decreases |txs|
  {
    if txs == [] then b else UndoTxs(UndoTx(b, txs[|txs| - 1], index), txs[..|txs| - 1], index)
  }

  // ---- The miner's reward

  predicate Rewards(m: Balances) {
    RESERVE in m && m[RESERVE] >= BLOCK_REWARD
  }

  function PayMiner(m: Balances, miner: Pubkey, n: nat): Balances {
    var fees := AddBal(m, miner, n);
    if Rewards(m) then AddBal(AddBal(fees, RESERVE, 0 - BLOCK_REWARD), miner, BLOCK_REWARD) else fees
  }

  function UnpayMiner(m: Balances, miner: Pubkey, n: nat, rewarded: bool): Balances {
    AddBal(if rewarded then AddBal(AddBal(m, RESERVE, BLOCK_REWARD), miner, 0 - BLOCK_REWARD) else m, miner, 0 - n)
  }

  // ---- Blocks

  predicate BlockOk(s: State, b: Block) {
    && b.Block? && b.parent == s.cur
    && HeaderOk(b)
    && |b.txs| <= MAX_TXS
    && b.miner in s.books.reg.accounts
    && PrepareOk(s, Height(b))
    && TxsOk(PrepareBooks(s.books, Height(b), LeavingIds(s.byHeight, Height(b))), b.txs, Height(b))
  }

  /** The books after the transactions and the miner's pay of block `b`. */
  function BlockBooks(p: Books, b: Block): Books
    requires b.Block?
  {
    var x := ApplyTxs(p, b.txs, Height(b), true);
    x.(bal := PayMiner(x.bal, b.miner, |b.txs|))
  }

  function BlockRewarded(p: Books, b: Block): bool
    requires b.Block?
  {
    Rewards(ApplyTxs(p, b.txs, Height(b), true).bal)
  }

  function ApplyBlock(s: State, b: Block): State
    requires b.Block?
  {
    var p := Prepare(s, Height(b));
    State(BlockBooks(p.books, b), p.undoTopics, p.undoTxs, b,
          s.byHeight[Height(b) := b], s.inMain + {b}, s.rewarded[b := BlockRewarded(p.books, b)])
  }

  /** m_tx_map.insert does not overwrite. */
  function Remember(m: map<Key, nat>, f: Forgotten): map<Key, nat> {
    (map k | k in f.ids :: f.born) + m
  }

  /** The end of rollback's first loop and of mine_tx: what expired at block `h` comes back. */
  function UnprepareBooks(b: Books, log: seq<Expired>, gone: Forgotten): Books {
    b.(forum := Restore(b.forum, log),
       bal := AddBal(b.bal, RESERVE, 0 - Worth(log)),
       txMap := Remember(b.txMap, gone))
  }

  function LogAt(m: map<nat, seq<Expired>>, n: nat): seq<Expired> {
    if n in m then m[n] else []
  }

  function GoneAt(m: map<nat, Forgotten>, n: nat): Forgotten {
    if n in m then m[n] else Forgotten(0, [])
  }

  function Unprepare(s: State, h: nat): State {
    if h < TOPIC_LIFE_TIME + 2 then s
    else s.(books := UnprepareBooks(s.books, LogAt(s.undoTopics, UndoKey(h)), GoneAt(s.undoTxs, UndoKey(h))),
            undoTopics := s.undoTopics - {UndoKey(h)},
            undoTxs := s.undoTxs - {UndoKey(h)})
  }

  /** Rollback's first loop takes the current block off only while its undo entry is retained. */
  predicate CanUndo(s: State) {
    && s.cur.Block?
    && (Height(s.cur) > TOPIC_LIFE_TIME + 1 ==> UndoKey(Height(s.cur)) in s.undoTopics)
  }

  /** The books of block `b` with the miner's pay and the transactions taken back. */
  function UnblockBooks(x: Books, b: Block, rewarded: bool): Books
    requires b.Block?
  {
    UndoTxs(x.(bal := UnpayMiner(x.bal, b.miner, |b.txs|, rewarded)), b.txs, true)
  }

  function UndoBlock(s: State): State
    requires s.cur.Block?
  {
    var b := s.cur;
    var h := Height(b);
    var u := Unprepare(s.(books := UnblockBooks(s.books, b, b in s.rewarded && s.rewarded[b])), h);
    State(u.books, u.undoTopics, u.undoTxs, b.parent, s.byHeight - {h}, s.inMain - {b}, s.rewarded)
  }

  /** Rollback's first loop. */
  function Rollback(s: State, target: nat): State
    decreases Height(s.cur)
  {
    if Height(s.cur) > target && CanUndo(s) then Rollback(UndoBlock(s), target) else s
  }

  function ApplyBlocks(s: State, bs: seq<Block>): Option<State> {
    if bs == [] then Some(s)
    else match ApplyBlocks(s, bs[..|bs| - 1])
      case None => None
      case Some(t) => if BlockOk(t, bs[|bs| - 1]) then Some(ApplyBlock(t, bs[|bs| - 1])) else None
  }

  /** Rolls back to the fork and applies the target's branch from there. */
  function Switched(s: State, fork: Block, path: seq<Block>): Option<State> {
    ApplyBlocks(Rollback(s, Height(fork)), path)
  }

  // ---- mine_tx

  /** What mine_tx leaves behind once it has applied `txs` for the next block and taken them back again. */
  function Tried(s: State, txs: seq<Tx>): State {
    var h := Height(s.cur) + 1;
    var p := Prepare(s, h);
    Unprepare(p.(books := UndoTxs(ApplyTxs(p.books, txs, h, false), txs, false)), h)
  }

  /** The same when it tried none. */
  function Speculated(s: State): State {
    Unprepare(Prepare(s, Height(s.cur) + 1), Height(s.cur) + 1)
  }

  // ---- Replay from genesis

  const AUTHOR: Pubkey :=
    Pub("BH6PNUv9anrjG9GekAd+nus+emyYm1ClCT0gIut1O7A3w6uRl7dAihcD8HvKh+IpOopcgQAzkYxQZ+cxT+32WdM=")
  const AUTHOR_NAME: Name := Name("bGljaHVhbg==")
  const RESERVE_NAME: Name := Name("cmVzZXJ2ZV9mdW5k")

  const INITIAL: State :=
    State(Books(Registry(map[AUTHOR := Account(1, AUTHOR_NAME, 1, 0, None)],
                         map[0 := RESERVE, 1 := AUTHOR],
                         {RESERVE_NAME, AUTHOR_NAME}, 1),
                map[RESERVE := TOTAL / 2, AUTHOR := TOTAL / 2],
                Forum(map[], [], map[AUTHOR := []], map[AUTHOR := []]),
                map[]),
          map[], map[], Genesis, map[0 := Genesis], {Genesis}, map[])

  /** What start rebuilds for the branch that ends in `b`; None when start gives up. */
  function Replay(b: Block): Option<State> {
    if b.Genesis? then Some(INITIAL)
    else match Replay(b.parent)
      case None => None
      case Some(s) => if BlockOk(s, b) then Some(ApplyBlock(s, b)) else None
  }
}
