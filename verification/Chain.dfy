/** Transactions, blocks and the genesis-rooted block tree.

    coin_hash is collision free, so an id is modelled by the very data it is the hash of: a transaction's
    id is `Hash(tx)` and a block's hash is the block value with its parent inside. A key that is the hash
    of nothing the node has seen is `Text(..)`. */
module Chain {
  import opened Lists

  /** A base64 public key of 88 characters, or the empty one that only the reserve fund has. */
  datatype Pubkey = NoKey | Pub(base64: string)

  /** A base64 account name. */
  datatype Name = Name(base64: string)

  datatype Key = Text(text: string) | Hash(tx: Tx)

  datatype Body =
    | TxReg(name: Name, referrer: Pubkey, avatar: nat)
    | TxSend(receiver: Pubkey, amount: nat)
    | TxTopic(reward: nat)
    | TxReply(topicKey: Key, replyTo: Option<Key>)
    | TxReward(topicKey: Key, toReply: Key, paid: nat)

  /** `rest` stands for every other hashed member: utc, memo, topic and reply text, the referrer's signature. */
  datatype Tx = Tx(pubkey: Pubkey, blockId: nat, fee: nat, rest: string, body: Body)

  datatype Block =
    | Genesis
    | Block(parent: Block, miner: Pubkey, utc: nat, zeroBits: nat, txs: seq<Tx>)

  function Height(b: Block): nat {
    if b.Genesis? then 0 else Height(b.parent) + 1
  }

  const GENESIS_UTC: nat := 1518926400

  function Utc(b: Block): nat {
    if b.Genesis? then GENESIS_UTC else b.utc
  }

  function ZeroBits(b: Block): nat {
    if b.Genesis? then 0 else b.zeroBits
  }

  /** m_utc_diff: seconds since the parent, 0 for the genesis block. */
  function UtcDiff(b: Block): int {
    if b.Genesis? then 0 else b.utc - Utc(b.parent)
  }

  /** The difficulty a child of `parent` must have. */
  function NextZeroBits(parent: Block): nat {
    if UtcDiff(parent) < 10 then ZeroBits(parent) + 1
    else if UtcDiff(parent) > 30 then (if ZeroBits(parent) > 1 then ZeroBits(parent) - 1 else 1)
    else ZeroBits(parent)
  }

  /** The header checks every copy makes (the clock is not modelled). */
  predicate HeaderOk(b: Block) {
    b.Block? && b.zeroBits == NextZeroBits(b.parent) && 1 <= b.zeroBits < 256 && Utc(b.parent) <= b.utc
  }

  /** Every block of the branch passed the header checks, as it must to enter the block tree. */
  ghost predicate HeadersOk(b: Block) {
    b.Genesis? || (HeaderOk(b) && HeadersOk(b.parent))
  }

  ghost predicate IsAncestor(a: Block, b: Block) {
    a == b || (b.Block? && IsAncestor(a, b.parent))
  }

  /** The blocks above `a`, up to and including `b`, lowest first. */
  ghost function PathFrom(a: Block, b: Block): seq<Block>
    requires IsAncestor(a, b)
  {
    if a == b then [] else PathFrom(a, b.parent) + [b]
  }

  /** The ancestor of `b` at height `n`. */
  ghost function AncestorAt(b: Block, n: nat): (a: Block)
    requires n <= Height(b)
    ensures Height(a) == n && IsAncestor(a, b)
  {
    if Height(b) == n then b else AncestorAt(b.parent, n)
  }

  lemma {:induction false} AncestorHeight(a: Block, b: Block)
    requires IsAncestor(a, b)
    ensures Height(a) <= Height(b)
    ensures Height(a) == Height(b) ==> a == b
    ensures AncestorAt(b, Height(a)) == a
  {
    if a != b {
      AncestorHeight(a, b.parent);
    }
  }

  lemma {:induction false} AncestorTrans(a: Block, b: Block, c: Block)
    requires IsAncestor(a, b) && IsAncestor(b, c)
    ensures IsAncestor(a, c)
  {
    if b != c {
      AncestorTrans(a, b, c.parent);
    }
  }

  lemma {:induction false} PathExtends(a: Block, b: Block, c: Block)
    requires IsAncestor(a, b) && IsAncestor(b, c)
    ensures IsAncestor(a, c)
    ensures PathFrom(a, c) == PathFrom(a, b) + PathFrom(b, c)
  {
    AncestorTrans(a, b, c);
    if b != c {
      PathExtends(a, b, c.parent);
      AncestorHeight(a, b);
      AncestorHeight(b, c.parent);
    } else {
      assert PathFrom(a, b) + [] == PathFrom(a, b);
    }
  }

  /** The fork of two branches: a common ancestor above every other common ancestor. */
  ghost predicate IsFork(f: Block, a: Block, b: Block) {
    && IsAncestor(f, a)
    && IsAncestor(f, b)
    && forall c :: IsAncestor(c, a) && IsAncestor(c, b) ==> IsAncestor(c, f)
  }

  /** Stepping one branch to its parent keeps the fork while the heights or the blocks differ. */
  lemma ForkOfParent(f: Block, a: Block, b: Block)
    requires b.Block? && Height(a) <= Height(b) && a != b
    requires IsFork(f, a, b.parent)
    ensures IsFork(f, a, b)
  {
    forall c | IsAncestor(c, a) && IsAncestor(c, b) ensures IsAncestor(c, f) {
      if c == b {
        AncestorHeight(b, a);
      }
    }
  }

  lemma ForkSym(f: Block, a: Block, b: Block)
    requires IsFork(f, a, b)
    ensures IsFork(f, b, a)
  {
  }

  /** The two walks of switch_to_most_difficult: first level the heights, then step both branches until
      they meet. The returned list is what db_blocks holds after its front element is popped. */
  method FindFork(cur: Block, target: Block) returns (cross: Block, dbBlocks: seq<Block>)
    ensures IsFork(cross, cur, target)
    ensures dbBlocks == PathFrom(cross, target)
  {
    var a, b := cur, target;
    dbBlocks := [b];
    while Height(a) < Height(b)
      invariant IsAncestor(b, target)
      invariant dbBlocks == [b] + PathFrom(b, target)
      invariant Height(cur) < Height(target) ==> Height(cur) <= Height(b)
      invariant Height(cur) >= Height(target) ==> b == target
      invariant forall f :: IsFork(f, a, b) ==> IsFork(f, cur, target)
    {
      StepFork(a, b, cur, target);
      PathExtends(b.parent, b, target);
      b := b.parent;
      dbBlocks := [b] + dbBlocks;
    }
    while Height(a) > Height(b)
      invariant Height(a) >= Height(b)
      invariant forall f :: IsFork(f, a, b) ==> IsFork(f, cur, target)
    {
      StepForkLeft(a, b, cur, target);
      a := a.parent;
    }
    while a != b
      invariant Height(a) == Height(b)
      invariant IsAncestor(b, target)
      invariant dbBlocks == [b] + PathFrom(b, target)
      invariant forall f :: IsFork(f, a, b) ==> IsFork(f, cur, target)
      decreases Height(a)
    {
      StepFork(a, b, cur, target);
      StepForkLeft(a, b.parent, cur, target);
      PathExtends(b.parent, b, target);
      b := b.parent;
      dbBlocks := [b] + dbBlocks;
      a := a.parent;
    }
    assert IsFork(a, a, b);
    cross := a;
    dbBlocks := dbBlocks[1..];
  }

  lemma StepFork(a: Block, b: Block, cur: Block, target: Block)
    requires b.Block? && Height(a) <= Height(b) && a != b
    requires forall f :: IsFork(f, a, b) ==> IsFork(f, cur, target)
    ensures forall f :: IsFork(f, a, b.parent) ==> IsFork(f, cur, target)
  {
    forall f | IsFork(f, a, b.parent) ensures IsFork(f, cur, target) {
      ForkOfParent(f, a, b);
    }
  }

  lemma StepForkLeft(a: Block, b: Block, cur: Block, target: Block)
    requires a.Block? && Height(b) < Height(a)
    requires forall f :: IsFork(f, a, b) ==> IsFork(f, cur, target)
    ensures forall f :: IsFork(f, a.parent, b) ==> IsFork(f, cur, target)
  {
    forall f | IsFork(f, a.parent, b) ensures IsFork(f, cur, target) {
      ForkSym(f, a.parent, b);
      ForkOfParent(f, b, a);
      ForkSym(f, b, a);
    }
  }
}
