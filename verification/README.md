# Verification of the Askcoin ledger

A Dafny model of the Askcoin node's ledger, and of the number, coding and memory code it carries, with proofs.
`dafny verify dfyconfig.toml` checks the whole project.

## What is modelled

The node keeps one ledger for the branch it is on and changes it in place. Blocks of five kinds of transactions
(register, send, new topic, reply, reward) are applied to it; `rollback` takes them off again by hand-written reverse
code; `switch_to_most_difficult` moves it to another branch; `mine_tx` applies pool transactions on trial, cancels those
that fail and undoes everything; `start` rebuilds it from genesis. The statements that apply a transaction exist in
several copies. Topics expire after 4320 blocks, transaction ids are forgotten after 4321, and two undo logs let both be
taken back.

The project answers, for every branch, every pool and every run:

* **Do the copies agree?** One class, `Ledger.Ledger`, has the loops of all copies on uint64 balances. Each method is
  proved to leave exactly the state that a function of the old state gives.
* **What does each transaction do?** `Effects` writes it out party by party and list by list, with the numbers of the
  source: who pays and who is paid, what becomes of topics, lists and ids, and exactly when a transaction or a block is
  accepted.
* **Does undo invert apply?** Transaction by transaction, block by block, and for expiry. Everything but the joined lists
  comes back whatever these hold; for the joined lists the exact condition is proved.
* **Is the ledger the one `start` would rebuild?** `Fidelity.Faithful` says so for every part of the ledger,
  `Fidelity.Tracks` for all but the joined lists, `Membership.Steady` for all but joined lists and the members of topics.
  Mined blocks and `mine_tx` keep the first. Rollback always keeps the second, and the first if and only if it pops the
  topics that were joined (`Rollbacks.RollbackTracks`, `Rollbacks.RollbackFaithfulIff`). Every run keeps the third,
  whatever its switches do to the joined lists (`Runs.RunSteady`, `Runs.RunFromGenesis`), and the first if each switch
  brings the joined lists back (`Runs.RunFaithful`, `Runs.JoinedFromGenesis`).
* **Are coins conserved?** Accounts and live topics hold 10^12 coins at every block boundary of every run, and no balance
  operation of applying, undoing, expiring or trying wraps.
* **Can what was applied always be taken back?** No: the reverse step of a reply pops two lists without looking, and where
  one of them is empty the source is undefined. The exact condition is proved, and that no run gets there as long as its
  switches bring the joined lists back.
* **Is forgetting ids safe?** No transaction occurs twice on a branch.

The remaining modules prove the accumulated work, the rich list, the 256-bit integer, the compact form, Base58, the
variable-length integers, the buffering of SHA-256 and the arena allocator.

| files | contents |
|---|---|
| `Numbers`, `Lists`, `Sums` | machine words; lists as the containers use them; sums over maps |
| `Chain`, `Books` | blocks, the branch walk; the books, a transaction and its reverse as functions |
| `Inverse`, `Invariant`, `Expiry`, `Sim` | undo inverts apply; what transactions keep; expiry and its undo; books that differ in joined lists |
| `Blocks`, `Replayed`, `Reorg` | blocks, undo logs and replay as functions; what every replayed ledger satisfies; undoing blocks |
| `UndoLogs`, `Fidelity`, `Rollbacks`, `Undo` | undo logs and index; the ledger that start would rebuild; speculation, rollback and switches on it; when undo is exact |
| `Stripped`, `Bare`, `Cores`, `Membership` | the ledger without joined lists and members: operations, replay, what no wrong joined list can touch; members |
| `Runs`, `BlindPop` | every run of blocks, trials and switches; a run on which joined lists and members go wrong |
| `Effects` | what each transaction, the miner's pay and expiry change, and what is accepted, in the numbers of the source |
| `NoReplay`, `Conservation`, `Solvency`, `Reversible`, `Census`, `Selection` | ids, coins, coins of every run, safe undoing, account ids, bodies for mining |
| `LedgerFacts`, `Standing`, `Ledger` | the ledger class and the facts its methods use |
| `Limbs`, `Bits`, `AccumPow`, `ArithUint256`, `Compact` | limbs, shifts, work, big integers, compact form |
| `RichIndex`, `Base58`, `VarInt`, `Sha256`, `Arena` | one component each |

## Modelling decisions

* Hashes are collision free: a transaction's id is modelled by the transaction, a block's hash by the block with its
  ancestry inside. So an id determines its block-id member, and a reply never names itself.
* Signatures, proof of work, the clock and the formats of names and keys beyond their lengths are taken as checked
  before; a transaction's remaining hashed members are one opaque string.
* Pointers are modelled by the keys of what they point to. The members of `Account` that change are kept in one map
  each. In the specification balances are integers; in the class they are reduced modulo 2^64, and a ghost flag records
  whether that ever made a difference.
* The header of a block is checked when the block enters the block tree, so the methods that connect blocks of the tree
  require it; `mined_new_block` checks it itself.
* Transactions in the pool have the right formats. The block-id window is another matter: `mine_tx` does not look at it,
  and its timer (src/blockchain.cpp:4652-4659) can run it on a pool that `do_uv_tx` has not yet filtered for a new height
  (src/blockchain.cpp:1583-1590). So nothing about `mine_tx` assumes it, and a selected body is valid exactly when it is
  inside the window.
* `pop_back` on an empty list is undefined in C++. In the functions it leaves the list empty; the methods of the class
  require that it does not happen (`Reversible.LoopDefined`, `Standing.RollbackDefined`, `Standing.TrialDefined`), which
  is proved for every ledger that tracks its replay.
* `start` also limits how many topics an account may have joined. `Bare.BareReplay` is the replay without joined lists,
  members and that limit, and without them both replays agree (`Bare.ReplayIsBare`).
* The rich list is a component of its own, linked to the ledger by reading: only the balance operations of `Account` touch
  it (src/account.cpp:32-51), and an account has no coins when its registration is undone, which `Unregister` requires
  (`Reversible.UnregisteredIsEmpty`). The ledger class keeps balances without the list.

## What the proofs showed about the code

* Expiry removes a topic from the middle of its members' joined lists, and undoing it pushes the topic to their front.
  So undoing a block restores the joined lists as sets, and exactly if and only if they are ordered by age
  (`Undo.ApplyThenUndo`).
* Undoing a first reply removes the last joined topic without looking at it. Over any path of undone blocks this brings the
  joined lists back if and only if the last elements of each, with what the restores push to its front, are the topics
  that the account's first replies in these blocks joined (`Rollbacks.JoinedBack`, `Rollbacks.RollbackFaithfulIff`); joined
  lists ordered by age are enough (`Undo.BackByAge`). It can fail: `BlindPop.WrongJoinedList` is a run of 4322 blocks after
  which rollback leaves an account with a topic it has not joined in place of one it has.
* Once that has happened members go wrong, too: `BlindPop.WrongMembers` continues the run with a switch to a branch of more
  work, and the members of a topic then differ from what `start` rebuilds. Nothing else does, on this run or any other:
  registry, balances, ids, queue, own lists and topics with their replies are those of `start` (`Runs.RunFromGenesis`), and
  no coin is lost (`Solvency.RunTotal`).
* On that ledger the way back is undefined: the reverse step of the reply calls `back` on the empty list of the topic's
  members (`BlindPop.EmptyPop`). The reverse step of a reply is defined if and only if the reply was applied where its
  author owns the topic, or the topic had a member, or the author had not joined it (`Reversible.PoppableIff`,
  `Reversible.LoopDefinedIff`).
* `mine_tx` prunes the undo entry of a block that is not connected yet. `Cores.CanUndoIff` gives the exact depth to
  which the first loop of `rollback` reaches.
* `start` and `switch_to_most_difficult` append a reply before they look up the reply it answers, the other copies
  after. It makes no difference, because a reply cannot answer itself.
* The arena's chunks are aligned relative to its end, so returned addresses are aligned exactly when the end is.
* Objects of unregistered accounts stay in the rich list, without coins; a list of the richest accounts that is longer
  than the number of accounts with coins shows them.

## Model

| member | source | states |
|---|---|---|
| Chain.FindFork | src/blockchain.cpp:7377-7456 | For any two blocks of a genesis-rooted tree the walk terminates with the cross block at the lowest common ancestor, and the collected list is the path from just above it to the target, lowest first. |
| Inverse.UndoApply | src/blockchain.cpp:9389-9519 | Undoing a transaction that was applied to books in order gives back exactly those books: balances, registry, topics with replies and members, queue, own and joined lists, id map. |
| Invariant.InvKept | src/blockchain.cpp:5692-6442 | Every accepted transaction keeps the books in order: the queue lists the live topics once and by age, each own list is the queue filtered by owner, joined lists and members agree, every reply and member was put there by an id still held, each account has its lists and a referrer other than itself. |
| Invariant.SoundKept | src/blockchain.cpp:5692-6442 | All of this except the agreement of joined lists and members is kept whatever the joined lists hold. |
| Effects.RegisterAccepted | src/blockchain.cpp:5705-5960 | On books in order a registration is accepted exactly when the id is new, the fee is 2, the inviting account is known and has 2 coins, key and name are new, the name has 4 to 20 characters and the avatar is 1 to 100. |
| Effects.RegisterEffect | src/blockchain.cpp:5705-5960 | The inviting account pays 2 coins, 1 of which reaches its own referrer, or the reserve fund when it has none; the new account has the next id, the given name and avatar, the inviting account as referrer, no coins and empty lists; nothing else changes. |
| Effects.SendAccepted | src/blockchain.cpp:5961-6122 | A send is accepted exactly when the amount is not zero, the sender has it and the fee, and the receiver exists. |
| Effects.SendEffect | src/blockchain.cpp:5961-6122 | The sender pays 2 coins, 1 of which reaches its referrer, and the whole amount, which reaches the receiver, also when two of the three coincide; nothing else changes. |
| Effects.TopicAccepted | src/blockchain.cpp:6123-6197 | A topic is accepted exactly when its reward is not zero, the author has it and the fee, and has fewer than 100 live topics. |
| Effects.TopicEffect | src/blockchain.cpp:6123-6197 | The fee is paid as above; the reward goes from the author to the topic, which is empty and the last of the queue and of the author's own list; nothing else changes. |
| Effects.ReplyAccepted | src/blockchain.cpp:6198-6310 | A reply is accepted exactly when the author has the fee, the topic is live and has fewer than 1000 replies, the first reply with the answered key is there and normal, and a newcomer has joined fewer than 100 topics. |
| Effects.ReplyEffect | src/blockchain.cpp:6198-6310 | The fee is paid as above; the reply is the topic's last; an author who does not own the topic and has not joined it becomes its last member, unless it is one, and has it as the last joined topic; nothing else changes. |
| Effects.RewardAccepted | src/blockchain.cpp:6311-6442 | A reward is accepted exactly when it is not zero, the sender has the fee and owns the live topic, the topic has the coins and fewer than 1000 replies, and the first reply with the key is a normal one of another account. |
| Effects.RewardEffect | src/blockchain.cpp:6311-6442 | The fee is paid as above; the coins leave the topic and are added to the reply and to the balance of its author; the reward is the topic's last reply; nothing else changes. |
| Effects.HeaderAccepted | src/blockchain.cpp:5625-5656 | A header is right exactly when its zero bits are the parent's plus one if the parent was found within 10 seconds of its own parent, the same within 30, and one less but at least one after more, they lie between 1 and 255, and the block is not older than its parent. |
| Effects.BlockAccepted | src/blockchain.cpp:5463-6442 | On a ledger at a block boundary a block is accepted exactly when it is on top, its header is right, it has at most 2000 transactions, its miner is registered, and each transaction names a block at most 100 away and passes the checks on top of those before it. |
| Effects.MinerEffect | src/blockchain.cpp:6447-6477 | After the transactions the miner gets 1 coin for each, and 5000 from the reserve fund exactly when that has them, which is recorded; no other balance changes. |
| Effects.ExpiryEffect | src/blockchain.cpp:240-421 | Before the transactions exactly the topics and the ids of blocks more than 4320 below are gone, what these topics held is in the reserve fund, and no other balance changes. |
| Effects.GenesisEffect | src/blockchain.cpp:2000-2030 | The genesis ledger has one account, with id 1 and no referrer; it and the reserve fund have 500000000000 coins each. |
| Sim.SimChecks | src/blockchain.cpp:3577-4262 | Books that differ only in where brought-back topics stand in joined lists give the same answer to every check of every transaction. |
| Sim.AlikeUndo | src/blockchain.cpp:9400-9519 | The reverse step brings back balances, registry, topics, queue, own lists and id map whatever the joined lists hold, and takes the last element off the author's joined list exactly when the transaction had joined a topic. |
| Expiry.ExpireSound | src/blockchain.cpp:356-421 | Expiry cannot fail on books in order, keeps them in order, and is exact: what is left are the topics not older than the life time, unchanged. |
| Expiry.RestoreExpireAlike | src/blockchain.cpp:9522-9549 | The restoring loop undoes the expiring loop whatever the joined lists hold: same topics, queue and own lists in the same order, joined lists of the same length. |
| Expiry.RestoredIff | src/blockchain.cpp:9545-9548 | A restored joined list holds what it held before expiry if and only if it held what expiry had left in it. |
| Replayed.PrepareSound | src/blockchain.cpp:240-421 | On a ledger at a block boundary neither expiry nor forgetting can fail; afterwards the queue is exactly the topics opened in the last life-time blocks, in order, and the id map exactly their ids. |
| Replayed.RememberLowest | src/blockchain.cpp:9551-9556 | Putting the forgotten ids of one block back gives the id map that held them, with their block. |
| Replayed.TxsSound | src/blockchain.cpp:5692-6445 | The transactions of a block enter each id exactly once, none of which was held before, append to the queue exactly the topics they open, and keep the books in order. |
| Replayed.ReplayBoundary | src/blockchain.cpp:3483-4335 | Every ledger rebuilt from genesis is at a block boundary of its branch: books in order, the queue exactly the topics and the id map exactly the ids of the last life-time + 1 blocks, height index and main-chain marks exactly the ancestors of the current block. |
| Replayed.LiveTopics | src/blockchain.cpp:356-421 | On such a ledger a topic is live if and only if one of these blocks opened it, and it is as old as that block. |
| Reorg.AlikeUndoTxs | src/blockchain.cpp:9371-9519 | The reverse loop over a block, last transaction first, gives back the books the block started from whatever the joined lists hold, and takes as many elements off the end of each joined list as its first replies had put there. |
| Reorg.UndoTxsExactly | src/blockchain.cpp:9371-9519 | From the very books the transactions left behind it gives back the very books they started from. |
| Reorg.UnprepareAlike | src/blockchain.cpp:9522-9560 | What expired and was forgotten at a block comes back whatever the joined lists hold: topics, queue order, own lists, reserve fund, id map. |
| Fidelity.ApplyFaithful | src/blockchain.cpp:7459-8291 | A ledger that is what start would rebuild accepts a block exactly when start does, and is then what start would rebuild for it, undo logs included. |
| Fidelity.UndoTracks | src/blockchain.cpp:9297-9566 | Taking a block off within the retained window leaves what start would rebuild for the parent, undo logs, height index and marks included, whatever the joined lists hold; what each of these becomes is stated exactly. |
| Cores.CanUndoIff | src/blockchain.cpp:9299-9307 | The first loop of rollback takes the current block off if and only if it is among the first life-time + 1 blocks or no more than a life time of blocks was ever prepared above its parent (mine_tx prepares one more than was ever connected), whatever joined lists and members are. |
| Rollbacks.SpeculateFaithful | src/blockchain.cpp:4812-5321 | Speculation is invisible: after mine_tx the ledger is still what start would rebuild, only the undo window may be one block shorter. |
| Rollbacks.RollbackTracks | src/blockchain.cpp:9293-9566 | Rollback reaches every ancestor in reach and leaves what start would rebuild for it in every field but the joined lists, whatever these hold; each of them has what expired pushed to its front and as many elements off its end as topics were joined. |
| Rollbacks.RollbackFaithfulIff | src/blockchain.cpp:9487-9549 | Rolling back to an ancestor brings the joined lists back, as multisets, if and only if the last elements of each, with what is pushed to its front, are the topics joined in the undone blocks. |
| Rollbacks.UndoFaithfulIff | src/blockchain.cpp:9487-9549 | The same for a single block. |
| Cores.RetainsIff | src/blockchain.cpp:9299-9307 | The undo entries down to a height are retained if and only if no more than a life time of blocks was ever prepared above it, or nothing was pruned yet, whatever joined lists and members are. |
| Rollbacks.SwitchFaithful | src/blockchain.cpp:7377-8291 | When rolling back to the fork brings the joined lists back, a branch switch succeeds exactly when start accepts the target branch, and ends in what start would rebuild for it, joined lists and members included. |
| Rollbacks.OneJoinedBack | src/blockchain.cpp:9495-9503 | When an account's first replies in the undone blocks joined one topic, its joined list comes back if and only if the list, with what is pushed to its front, ends with that topic. |
| Rollbacks.JoinedAndPushedBack | src/blockchain.cpp:9495-9548 | When that topic also expired in these blocks, it comes back if and only if the list was otherwise empty. |
| Bare.ReplayIsBare | src/blockchain.cpp:3483-4335 | What start rebuilds is, without joined lists and members, what a replay without them rebuilds: no check but the limit on joined topics, and no other field, depends on them. |
| Bare.BareUndoTxs | src/blockchain.cpp:9371-9519 | Whatever joined lists and members are, the reverse loop gives back everything else as it was before the block. |
| Cores.CoreApply | src/blockchain.cpp:7561-8290 | A block that the ledger accepts, whatever its joined lists and members are, is accepted by the replay without them, and the ledger follows that replay, undo logs, marks and index included. |
| Cores.CoreAccepts | src/blockchain.cpp:8144-8153 | Whatever joined lists and members are, a block is accepted exactly when that replay accepts it and every account that joins a topic in it has joined fewer than 100. |
| Cores.CoreUndo | src/blockchain.cpp:9297-9566 | Taking a block off within the retained window leaves the replay of the parent in all but joined lists and members, whatever these are. |
| Cores.CoreTried | src/blockchain.cpp:4812-5321 | So does mine_tx, whatever transactions it applied and took back. |
| Membership.SteadyUndo | src/blockchain.cpp:9297-9566 | Rolling a block back also keeps the members of every live and expired topic in order: each was added by a reply of its own that the topic still has, no account twice and never the owner. |
| Membership.SteadyRollback | src/blockchain.cpp:9293-9566 | Rollback reaches every ancestor in reach, whatever joined lists and members are, and leaves all else as replayed for it. |
| Membership.SteadySwitch | src/blockchain.cpp:7377-8291 | A branch switch that succeeds ends in the replay of the target in all but joined lists and members, whatever it does to these. |
| Runs.TracksSteady | src/blockchain.cpp:3483-4335 | A ledger that is what start would rebuild but for joined lists is one of these. |
| Runs.RunSteady | src/blockchain.cpp:3483-4335 | After any sequence of mined blocks, mine_tx calls with whatever they select, and branch switches, each of which finds its undo entries, the ledger is in all but joined lists and members the replay of the branch it is on. |
| Runs.RunFaithful | src/blockchain.cpp:3483-4335 | If each switch of the run also brings the joined lists back, the ledger is what start would rebuild for the branch it is on. |
| Runs.RunFromGenesis | src/blockchain.cpp:3483-4335 | For every run from genesis that finds its undo entries: the branch it ends on passes every check of start but perhaps the limit on joined topics, and when start accepts it, registry, balances, id map, topics with replies, queue, own lists, height index and marks are those that start rebuilds. |
| Runs.JoinedFromGenesis | src/blockchain.cpp:3483-4335 | If each switch of the run brings the joined lists back, start accepts the branch, members are equal, too, and joined lists equal as multisets. |
| Rollbacks.ApplyBlocksFaithful | src/blockchain.cpp:7459-8291 | Connecting a path of blocks succeeds exactly when start accepts the whole branch. |
| Undo.UndoTransactions | src/blockchain.cpp:9357-9519 | Miner pay and reverse loop give back exactly the books the transactions of a valid block started from, list orders included. |
| Undo.RestoreExactIff | src/blockchain.cpp:9522-9549 | Expiring and restoring gives back the very same forum if and only if every joined list has its expiring topics first and in queue order. |
| Undo.ApplyThenUndo | src/blockchain.cpp:9355-9565 | A valid block applied and undone gives back the same books with joined lists as sets, and the very same books if and only if it expires nothing or the joined lists are ordered by age. |
| Undo.ApplyThenUndoRest | src/blockchain.cpp:9562-9565 | After apply and undo the current block, the height index and the main-chain marks are back, and each undo log has lost only the entry that applying the block pruned. |
| Undo.SpeculatedIff | src/blockchain.cpp:4812-5321 | What mine_tx leaves behind: the same books with joined lists as sets, the very same ones if and only if nothing would expire or the joined lists are ordered by age, the same chain position, and each undo log without the one pruned entry. |
| Undo.BackByAge | src/blockchain.cpp:9495-9548 | Joined lists as start rebuilds them come back whenever they were ordered by age wherever something expired in the undone blocks; rollback then leaves the very books that start rebuilds. |
| BlindPop.WrongJoinedList | src/blockchain.cpp:9495-9548 | A run from genesis, 4322 mined blocks long, after which rollback to block 2 leaves an account with the wrong joined topic: the condition on the joined lists fails. |
| BlindPop.WrongMembers | src/blockchain.cpp:8144-8153 | The run goes on with a switch to a branch of more work that forks at block 2; afterwards the members of a topic are not those that start rebuilds for it, and rolling back to block 2 again, which its undo entries allow, is undefined. |
| BlindPop.Heavier | src/block.cpp:69-73 | The work of the two branches, 16388 against 8644. |
| BlindPop.EmptyPop | src/blockchain.cpp:9494-9503 | On a ledger where a reply stands in a topic of another account without members, rollback reaches a call of back on an empty list. |
| NoReplay.OnlyRecent | src/blockchain.cpp:4456-4465 | A transaction that passes the block-id window at block h is on the branch only if it is in the last 200 blocks before h, so dropping older ids loses nothing. |
| NoReplay.NoTransactionTwice | src/blockchain.cpp:240-354 | No transaction occurs twice on an accepted branch of any length, although ids are forgotten after life-time + 1 blocks. |
| Conservation.TxTotal | src/blockchain.cpp:5855-6442 | Every accepted transaction takes exactly one coin out of accounts and topics together, whichever parties coincide. |
| Conservation.FundedTxs | src/blockchain.cpp:5692-6445 | Inside a block, k transactions leave 10^12 - k coins in accounts and topics, and every balance in range. |
| Conservation.TxNonNegative | src/blockchain.cpp:5855-6442 | The guards leave no account and no topic below zero, whichever parties coincide. |
| Conservation.TxFunds | src/blockchain.cpp:6311-6436 | What a topic still holds and what its replies were paid add up to what it was opened with, after every transaction. |
| Conservation.ExpireTotal | src/blockchain.cpp:356-421 | What expiry adds to the reserve fund is exactly what the queue loses. |
| Conservation.ReplayTotal | src/blockchain.cpp:4759-4775 | At every block boundary accounts and live topics hold exactly 10^12 coins together, none negative. |
| Conservation.FundedBounded | src/blockchain.cpp:4759-4775 | On every reachable ledger, also inside a block, each balance lies between 0 and the total. |
| Reversible.AppliedIsReady | src/blockchain.cpp:9400-9519 | A transaction that was applied can be taken back without reading a missing reply or account or leaving the range of a balance, whatever joined lists and members have become, if and only if the members of its topic and the joined list of its author, where the reverse step of a reply pops them, are not empty. |
| Reversible.PoppableIff | src/blockchain.cpp:9494-9503 | Right after a reply was applied they are not, if and only if its author owned the topic, or the topic had a member, or the author had not joined it. |
| Reversible.LoopDefinedIff | src/blockchain.cpp:9371-9503 | The reverse loop over applied transactions pops no empty list if and only if this held for each reply where it was applied, whatever joined lists and members are. |
| Standing.TracksDefined | src/blockchain.cpp:9371-9503 | On a ledger that tracks its replay rollback pops no empty list on the way to any ancestor in reach, whatever the joined lists hold. |
| Standing.PeopledTrial | src/blockchain.cpp:5258-5271 | mine_tx pops no empty list, whatever it selects, when joined lists name live topics only, each the account's own or with a member. |
| Reversible.UnregisteredIsEmpty | src/blockchain.cpp:9435-9438 | An account whose registration is undone holds no coins then. |
| Census.ReplayIds | src/blockchain.cpp:3842-3846 | Account ids run without gaps from 0 to the last one, the indexes by id and by key are inverse, and no two accounts share a name. |
| Solvency.RunTotal | src/blockchain.cpp:4759-4775 | After every run from genesis that finds its undo entries, whatever it does to joined lists and members, accounts and live topics hold exactly 10^12 coins, none negative. |
| Census.CensusTotal | src/blockchain.cpp:4759-4770 | Adding up by account id counts every balance exactly once. |
| Selection.IndexFree | src/blockchain.cpp:4858-4917 | Leaving new accounts out of the index by id, as mine_tx does, changes no check and nothing else. |
| Selection.SelectedOnce | src/blockchain.cpp:4848-4853 | No transaction is selected twice. |
| Selection.SelectedBlockOk | src/blockchain.cpp:5634-6442 | A block with a selected body and a correct header passes every check on the ledger the selection started from if and only if each of its transactions is inside its block-id window. |
| Selection.LeftOut | src/blockchain.cpp:4822-5186 | Whatever three passes leave out of a selection of fewer than 2000 was tried and did not fit; what would fit at the end did not fit in any of three passes, of which each of the first two selected something. |
| Selection.FirstSelected | src/blockchain.cpp:4822-5186 | A pool whose first transaction fits gives a selection that begins with it. |
| Ledger.Ledger.constructor | src/blockchain.cpp:2000-2030 | The genesis ledger: reserve fund and author with half of the coins each. |
| Ledger.Ledger.AddBalance | src/account.cpp:32-37 | Adds modulo 2^64 and notes whether it wrapped. |
| Ledger.Ledger.SubBalance | src/account.cpp:39-44 | Subtracts modulo 2^64 and notes whether it wrapped. |
| Ledger.Ledger.GetReply | src/topic.cpp:33-46 | Finds the first reply with the key. |
| Ledger.Ledger.JoinedTopic | src/account.cpp:173-184 | Tells whether the topic is in the joined list. |
| Ledger.Ledger.MemberAdded | src/topic.cpp:73-86 | Adds a member unless the account already is one. |
| Ledger.Ledger.LeaveTopic | src/account.cpp:160-171 | Erases the first entry of the topic, if there is one. |
| Ledger.Ledger.CheckFee | src/blockchain.cpp:4852-4933 | The checks before the fee: an id not held, a known payer with two coins, and for a registration a new key and a new name. |
| Ledger.Ledger.ChargeFee | src/blockchain.cpp:4935-4951 | The payer has 2 coins fewer and the account that invited it, or the reserve fund when nobody did, has 1 more; the two orders of the copies give the same balances, and nothing wraps. |
| Ledger.Ledger.Send | src/blockchain.cpp:4965-4990 | Accepted exactly when the amount is there after the fee and the receiver exists, also when sender and receiver are the same. |
| Ledger.Ledger.NewTopic | src/blockchain.cpp:4991-5030 | Accepted exactly when the reward is there after the fee, the id is no topic yet and the owner has fewer than 100 topics. |
| Ledger.Ledger.ApplyTransaction | src/blockchain.cpp:4838-5180 | The copies of start, mined_new_block and mine_tx accept the same transactions, except that mine_tx does not look at the block-id window, and leave the same state, which `Effects` states party by party; in mine_tx a failed one leaves no trace; no balance wraps. |
| Ledger.Ledger.PostReply | src/blockchain.cpp:4082-4168 | Appending the reply before or after looking up the reply it answers makes no difference. |
| Ledger.Ledger.PayReward | src/blockchain.cpp:6311-6436 | A reward moves its coins from the topic to the reply and to the reply's author, who is another account. |
| Ledger.Ledger.CancelFee | src/blockchain.cpp:4952-4963 | failed_cb gives back exactly the fee. |
| Ledger.Ledger.UndoTransaction | src/blockchain.cpp:9400-9519 | The reverse step of rollback and of mine_tx is the inverse step, and no balance wraps in it. |
| Ledger.Ledger.RefundFee | src/blockchain.cpp:5223-5236 | Takes the fee back in the order of rollback or of mine_tx, without wrapping. |
| Ledger.Ledger.RemoveReply | src/blockchain.cpp:9487-9503 | Takes the last reply off, and the last member and the author's last joined topic when the last member was added by this transaction. |
| Ledger.Ledger.TakeReward | src/blockchain.cpp:9505-9518 | Gives the coins of a reward back to its topic. |
| Ledger.Ledger.UndoTransactions | src/blockchain.cpp:9371-9519 | The reverse loop over any list of applied transactions, of a block or of mine_tx, takes each step without wrapping, whatever joined lists and members are, where it pops no empty list, and ends with all else as it was before the first of them. |
| Ledger.Ledger.ProcTopicExpired | src/blockchain.cpp:356-421 | On a funded ledger expiry succeeds, moves the expired coins to the reserve fund without wrapping, and writes the undo entry. |
| Ledger.Ledger.LeaveMembers | src/blockchain.cpp:409-412 | Every member leaves the expiring topic, member by member. |
| Ledger.Ledger.ProcTxMap | src/blockchain.cpp:240-354 | Fails exactly when an id of the leaving block is missing or repeated; otherwise forgets exactly its ids and writes the undo entry. |
| Ledger.Ledger.RestoreExpired | src/blockchain.cpp:9522-9560 | Takes back expiry and forgetting and drops the undo entry. |
| Ledger.Ledger.ApplyTransactions | src/blockchain.cpp:5692-6445 | A block's transactions are all applied, or the first that fails is found. |
| Ledger.Ledger.PayBlock | src/blockchain.cpp:6447-6477 | The miner gets one coin for each transaction, and 5000 out of the reserve fund exactly when that has them, which is the result; nobody else's balance changes. |
| Ledger.Ledger.UnpayBlock | src/blockchain.cpp:9357-9369 | Takes exactly the miner's pay back, the reward only when it was paid. |
| Ledger.Ledger.Connect | src/blockchain.cpp:7561-8290 | Whatever joined lists and members are, a block is connected exactly when it checks, the whole new ledger is that of the specification, miner's pay included (`Effects.MinerEffect`), and no balance wraps; a faithful ledger connects it exactly when start would accept it and stays faithful. |
| Ledger.Ledger.UndoCurrent | src/blockchain.cpp:9297-9566 | Takes the current block off, whatever joined lists and members are, where its reverse loop is defined; the whole new ledger is that of the specification, no balance wraps, all but joined lists and members is as replayed, and a faithful ledger stays faithful exactly under the condition on the joined lists. |
| Ledger.Ledger.RollbackTo | src/blockchain.cpp:9293-9566 | Rolls back to any height whose undo entries are retained, whatever joined lists and members are, where each reverse loop is defined, and ends on the ancestor of that height; a faithful ledger stays faithful exactly under the condition on the joined lists. |
| Ledger.Ledger.ConnectAll | src/blockchain.cpp:7474-8291 | A whole path is connected exactly when every block of it checks, whatever the joined lists hold; from a faithful ledger exactly when start would accept the branch. |
| Ledger.Ledger.Start | src/blockchain.cpp:3458-4335 | Replaying the branch of a block ends in the specified replay, or gives up exactly when that does. |
| Ledger.Ledger.SwitchToMostDifficult | src/blockchain.cpp:7377-8291 | Finds the fork, rolls back to it and connects the target branch, whatever earlier switches did to joined lists and members; no balance wraps and all else is as replayed for the target. On a faithful ledger, if rolling back brings the joined lists back, it succeeds exactly when start accepts that branch and ends in what start would rebuild. |
| Ledger.Ledger.MinedNewBlock | src/blockchain.cpp:5463-6600 | Accepts a block exactly when its parent, header, size, miner and every transaction check; the zero bits it accepts rise by one, stay or fall by one as the current block was found within 10 seconds, within 30 or later. |
| Ledger.Ledger.SelectTransactions | src/blockchain.cpp:4800-5186 | The rotating loop selects exactly what at most three passes over the pool in its order select, at most 2000 transactions; what is left out of fewer was tried and did not fit, and what fits at the end did not fit in any of three passes; it makes no more tries than three times the pool. |
| Ledger.Ledger.MineTx | src/blockchain.cpp:4777-5321 | For every pool of transactions of the right format, whatever joined lists and members are: selects exactly what these passes select on top of the next block's expiry, and whatever is left out of fewer than 2000 was tried and did not fit; leaves what trying and taking back the selected transactions leaves, and on a faithful ledger nothing but an undo window one entry shorter; the selection has no repetitions and is the body of a valid block on the ledger it started from if and only if all of it is inside the block-id window. |
| Ledger.Ledger.CheckBalance | src/blockchain.cpp:4759-4775 | Compares the sum of all accounts by id and all queued topics, modulo 2^64, with 10^12. |
| Ledger.BalanceChecks | src/blockchain.cpp:4759-4775 | On every ledger that a run can reach this sum is 10^12, whatever joined lists and members are, so the check succeeds. |
| AccumPow.AccumPow.AddPow | src/accum_pow.cpp:13-26 | Adds 2^zero_bits to the nine limbs. |
| AccumPow.AccumPow.SubPow | src/accum_pow.cpp:28-62 | Subtracts 2^zero_bits, or leaves everything as it was, exactly when less is there. |
| AccumPow.AccumPow.Greater | src/accum_pow.cpp:69-152 | Is numeric order. |
| AccumPow.AccumPow.Equal | src/accum_pow.cpp:64-67 | Is numeric equality. |
| AccumPow.AccumPow.AddDifficultyFrom | src/block.cpp:69-73 | The work of a block is the sum of 2^zero_bits over its ancestry and more than its parent's; below height 2^33 nothing is carried past the last limb. |
| AccumPow.WorkFits | src/block.cpp:69-73 | Below height 2^33 the work of a branch with checked headers is less than 2^288. |
| AccumPow.WorkGrows | src/block.cpp:49-52 | A block has strictly more work than each of its proper ancestors. |
| RichIndex.RichIndex.Del | src/blockchain.cpp:167-180 | Takes exactly the given object out of the index, whatever other objects have the same key. |
| RichIndex.RichIndex.Add | src/blockchain.cpp:182-185 | Enters the object in order. |
| RichIndex.RichIndex.AddBalance | src/account.cpp:32-37 | No key changes while its object is in the index; afterwards the index is in order and holds the account once. |
| RichIndex.RichIndex.SubBalance | src/account.cpp:39-44 | The same for subtraction. |
| RichIndex.RichIndex.SetBalance | src/account.cpp:46-51 | The same for assignment. |
| RichIndex.RichIndex.Unregister | src/blockchain.cpp:9435-9438 | The object of an unregistered account stays in the index, where it has no coins. |
| RichIndex.RichIndex.RichList | src/account.hpp:13-29 | Up to the first account without coins the index lists exactly the live accounts with coins, by balance descending and then id ascending. |
| RichIndex.RichIndex.Top100 | src/blockchain.cpp:688-702 | The first hundred elements, by balance descending: nobody left out is richer than anybody listed, or as rich with a lower id, and nobody with coins is left out of a shorter list. |
| ArithUint256.ArithUint256.Add | src/arith_uint256.h:141-151 | Sum modulo 2^256, also when an object is added to itself. |
| ArithUint256.ArithUint256.Negated | src/arith_uint256.h:83-90 | Two's complement negation modulo 2^256. |
| ArithUint256.ArithUint256.Sub | src/arith_uint256.h:153-157 | Difference modulo 2^256. |
| ArithUint256.ArithUint256.Increment | src/arith_uint256.h:179-186 | Successor modulo 2^256. |
| ArithUint256.ArithUint256.Decrement | src/arith_uint256.h:196-203 | Predecessor modulo 2^256. |
| ArithUint256.ArithUint256.ShiftLeft | src/arith_uint256.cpp:24-38 | Product with 2^shift modulo 2^256, for every shift. |
| ArithUint256.ArithUint256.ShiftRight | src/arith_uint256.cpp:41-55 | Quotient by 2^shift, for every shift. |
| ArithUint256.ArithUint256.MulWord | src/arith_uint256.cpp:58-67 | Product with a word modulo 2^256; no partial sum leaves 64 bits. |
| ArithUint256.ArithUint256.Mul | src/arith_uint256.cpp:70-83 | Product modulo 2^256 when the operand is another object, 0 when it is the same object; no partial sum leaves 64 bits. |
| ArithUint256.ArithUint256.Div | src/arith_uint256.cpp:86-109 | Quotient and remainder for every nonzero divisor; for zero the quotient is cleared and the source throws. |
| ArithUint256.ArithUint256.CompareTo | src/arith_uint256.cpp:112-121 | Is numeric comparison. |
| ArithUint256.ArithUint256.BitCount | src/arith_uint256.cpp:174-186 | The position of the highest bit plus one. |
| ArithUint256.ArithUint256.GetLow64 | src/arith_uint256.h:251-255 | The number modulo 2^64. |
| ArithUint256.ArithUint256.SetWord | src/arith_uint256.h:94-101 | The number becomes the 64-bit value. |
| ArithUint256.ArithUint256.SetCompact | src/arith_uint256.cpp:206-224 | The value of a compact form modulo 2^256; the overflow flag is set exactly when it does not fit. |
| ArithUint256.ArithUint256.GetCompact | src/arith_uint256.cpp:226-247 | The compact form of the number; neither assert can fail. |
| Compact.CompactRoundTrip | src/arith_uint256.cpp:206-247 | Reading a compact form back gives a number not above the original, within one part in 2^15 of it, without overflow or sign, and with the same compact form. |
| Compact.FullValueIs | src/arith_uint256.cpp:206-224 | A compact form stands for its mantissa of 23 bits times 256 to its first byte less 3, rounded down. |
| Compact.CompactSign | src/arith_uint256.cpp:226-247 | The sign bit is set exactly for negative numbers other than zero, and changes nothing else. |
| Base58.Absorb | src/utilstrencodings.cpp:165-176 | One turn of both base conversions, in place; the assert that no carry is left cannot fail in a buffer that is large enough. |
| Base58.EncodeBase58 | src/utilstrencodings.cpp:146-184 | Computes the encoding; the buffer of 138/100 of the input plus one is large enough. |
| Base58.DecodeBase58 | src/utilstrencodings.cpp:96-144 | Computes the decoding and rejects exactly what has none; the buffer of 733/1000 of the input plus one is large enough. |
| Base58.EncodeFits | src/utilstrencodings.cpp:156-157 | 256^n is at most 58 to the computed size, for every n. |
| Base58.AlphabetIs | src/utilstrencodings.cpp:93-94 | The 58 letters rise and are exactly the digits and letters but 0, I, O and l. |
| Base58.EncodingIs | src/utilstrencodings.cpp:146-184 | An encoding begins with exactly one '1' for each leading zero byte and, read as digits of base 58, the highest first, is the number of the bytes, the highest first. |
| Base58.DecodeFits | src/utilstrencodings.cpp:108-109 | 58^n is at most 256 to the computed size, for every n. |
| Base58.DecodeEncode | src/utilstrencodings.cpp:96-184 | Every byte string decodes from its encoding. |
| Base58.EncodeDecode | src/utilstrencodings.cpp:96-184 | Whatever decodes is, but for spaces around it, the encoding of what it decodes to. |
| VarInt.GetSizeOfVarInt | src/serialize.h:300-311 | The number of bytes written. |
| VarInt.WriteVarInt | src/serialize.h:316-331 | Writes the groups highest first, within its buffer. |
| VarInt.ReadVarInt | src/serialize.h:333-352 | Reads a number or fails as specified; the running value never leaves the type. |
| VarInt.ReadWrite | src/serialize.h:316-352 | Reading gives back every number of the type and leaves what follows it. |
| VarInt.WriteRead | src/serialize.h:333-352 | Every accepted byte string is what its number is written as. |
| VarInt.SizeFits | src/serialize.h:300-331 | The written length is the computed one and fits the declared buffer. |
| VarInt.WrittenBytes | src/serialize.h:316-331 | Every byte but the last has the continuation bit, and the low seven bits are the groups of the number, the highest first; the group with t groups below it is taken after 128 + .. + 128^t is subtracted. |
| Sha256.CSHA256.Write | src/crypto/sha256.cpp:201-225 | However a message is cut into calls, the state is that of the whole message. |
| Sha256.CSHA256.Finalize | src/crypto/sha256.cpp:227-242 | The digest of the message padded as in section 5.1.1 of FIPS 180-4 and folded block by block: the last eight bytes give its length in bits, and the digest has the four bytes of each word of the state, the highest first. |
| Sha256.CSHA256.Reset | src/crypto/sha256.cpp:244-249 | Forgets the message. |
| Sha256.PaddedOnce | src/crypto/sha256.cpp:227-242 | A message has only one padding, however it was written. |
| Sha256.FoldLast | src/crypto/sha256.cpp:201-225 | Each block of 64 bytes is compressed with the state that the blocks before it left. |
| Sha256.PaddedBytes | src/crypto/sha256.cpp:227-233 | A padded message is the message, the byte 0x80, fewer than 64 zeros and eight bytes that give its length in bits, the highest first, and fills its blocks of 64. |
| Sha256.BigEndianAt | src/crypto/common.h:71-82 | Byte i of a number written in n bytes is its quotient by 256 to the n - 1 - i, modulo 256. |
| Arena.Arena.constructor | src/support/lockedpool.cpp:46-51 | One free chunk covers the arena. |
| Arena.Arena.Alloc | src/support/lockedpool.cpp:57-77 | Fails exactly when the rounded size is zero or no free chunk is large enough; otherwise the new chunk is the end of the first free chunk in address order that is, lies in the arena, overlaps no other, and starts a multiple of the alignment below the end. |
| Arena.AlignUpIs | src/support/lockedpool.cpp:38-41 | Sizes are rounded up to the least multiple of the alignment. |
| Arena.Arena.FirstFit | src/support/lockedpool.cpp:66-70 | Finds the first free chunk in address order that is large enough. |
| Arena.Arena.Free | src/support/lockedpool.cpp:88-110 | Fails exactly for pointers that are not in use; afterwards chunks partition the arena and no two free chunks are adjacent. |
| Arena.Arena.Coalesce | src/support/lockedpool.cpp:102-109 | The freed chunk is joined with the free chunks on both sides and with no other. |
| Arena.Arena.GetStats | src/support/lockedpool.cpp:112-121 | Used and free bytes always add up to the arena. |
| Arena.FreeFollowsUsed | src/support/lockedpool.cpp:57-110 | What is free depends only on what is used, not on the order of the calls. |
| Arena.AllFreed | src/support/lockedpool.cpp:88-110 | When nothing is used any more, the single chunk of the beginning is back. |

## Left out

- Ledger.Ledger.RollbackTo: covers the targets that the first loop of rollback reaches; the rebuild for deeper targets (src/blockchain.cpp:9568-10178) is not modelled, because its counter advances twice per turn and the blocks it rebuilds are not those its target needs.
- Ledger.Ledger.SwitchToMostDifficult: requires that the undo entries above the fork are retained and that rollback pops no empty list on the way, like Ledger.Ledger.UndoCurrent for its block; what the source does otherwise is the rebuild that is not modelled, or undefined.
- Runs.RunFaithful: covers joined lists and members only for runs whose switches bring the joined lists back; that they can be wrong otherwise is BlindPop.WrongMembers, and all else is Runs.RunFromGenesis.
- Ledger.Ledger.Start: replays a given branch; reading the block tree from disk, choosing the heaviest block and importing a merge point are not modelled. In the source the current block is already the last one while the branch is replayed.
- Ledger.Ledger.MinedNewBlock: does not model hashes, signatures, the clock, the database and the update of the heaviest block.
- Ledger.Ledger.MineTx: requires that what it selects can be taken back without popping an empty list, and does not model the miner's key, the hand-over to the mining thread and the zero bits it computes for it.
- Ledger.Ledger.Connect: the header is a requirement, because blocks enter the tree only with a checked header.
- Base58.DecodeBase58: the text is the part before the first NUL character, and the computed size is not cut to an int, which would matter for inputs of many megabytes.
- Sha256.CSHA256.Finalize: the compression function is a parameter; its rounds are not modelled.
- Arena.Arena.Alloc: addresses are numbers; the pages behind them are not modelled.
- RichIndex.RichIndex.Add: the ordered multiset is a sequence; its tree is not modelled.
- switch_chain and the detail-chain code: receiving and checking chains of peers.
- Merge-point export and import, except that keeping the ids of the last 200 blocks loses nothing.
- Account histories, miner public keys and the counters of unverified transactions.
- The order in which accounts are entered in the rich list by the ledger's methods; the ledger class keeps balances only.
- JSON, leveldb, networking, threads, logging and the console except its list of the richest accounts.
- ECDSA, BIP32 keys, the memory-hard mixing of the mining hash, AES and random numbers.
- The locked pool's page allocation and its mutex; comparisons, bitwise operators and hexadecimal forms of the 256-bit integer.
