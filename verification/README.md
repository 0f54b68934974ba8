# A verified model of the Edge Matrix node

This project models the core of the Edge Matrix node, a proof-of-authority
blockchain node whose transactions are called telegrams, and proves what its
parts promise. `dafny verify dfyconfig.toml` checks all of it.

The parts, and where to start reading each:

- **Consensus.** `Quorum`, `ValidatorSet`: quorum arithmetic and proposer
  rotation. `IbftMessages`, `IbftStore`, `IbftChecks`: messages, their store,
  and what a validator checks. `IbftGuarantees`: which certificates and proposals
  pass, field by field. `IbftNode`: one validator as a state machine
  (`Next`) and as an object (`Node`) whose methods are steps of that machine.
  `IbftNetwork`: any number of validators with Byzantine ones among them;
  agreement within a round. `IbftValidity`: only valid blocks are finalised;
  `IbftProgress`: and every valid block can be.
  `IbftAgreement`: agreement across rounds.
  `IbftCounterexamples`: concrete messages and runs on which a property fails.
- **State.** `State`: the write-back overlay over a committed state.
  `StateRuns`: every sequence of operations, snapshots and reverts refines a
  direct reference state. `StorageGas`, `RefundRuns`: net gas metering. `Txn`:
  the overlay as objects that are copied and never changed in place, with log
  lists that share memory; `TxnRuns`: runs of nested calls on them. `Telegrams`,
  `Balances`, `Executor`: conservation of the total balance. `Readings`,
  `ExecutorLaws`: what a call, a creation and a telegram do to every account, for
  every interpreter. `BlockBuilding`: builder and validator agree. `Replay`: no
  telegram is executed twice. `Transitions`: the executor on the objects.
- **Telegram pool.** `Heap`, `PoolAccount`: the queues of one account and its
  nonce window. `SlotGauge`, `PoolBooks`: the accounting on values. `Pool`: the
  pool object; every handler is one atomic step that keeps `Valid`.
  `BlockSelection`: a builder draws from the pool and writes what it draws.
- **Chain store.** `Chain`: canonical index, parent links and head agree.
  `GasLimit`: the limit a builder computes and the one a checker accepts.
- **Merkle tree** (`Merkle`: what is accepted; `MerkleTree`: the tree and the
  checker with their stateful hasher), **filter timeouts** (`FilterTimeouts`), and the
  **typed RLP form** of headers, telegrams, blocks and bodies (`Rlp`,
  `TypedRlp`).

Conventions. Operations that update fields in place are methods of classes;
their postconditions tie the new state to a function of the old one, and the
theorems are about those functions. Signatures, hash functions, the interpreter,
clocks and the network are parameters. Where a property is not true of the code,
there is a lemma or method with a concrete counterexample and an if-and-only-if
that says exactly when it is true.

What the proofs show about the code beyond what its comments say:

- A certificate search can return a round that is not above the node's own
  (`HandleRoundChange`); with that, a correct node can commit twice in a round
  (`UnguardedJumpCommitsTwice`). The agreement theorems keep to the documented
  guard of the certificate channel.
- Proposal hashes cover the round, so a proposal is never accepted on top of a
  certificate that holds a well-hashed lock (`LockedRoundAcceptsIff`,
  `LockedBlockIsRefused`).
- A ROUND-CHANGE with a valid certificate and no proposal makes the receiver
  dereference a missing proposal (`HeadlessPanics`; exact condition in
  `PanicsIff` and `HandleRoundChange`).
- The refund counter can wrap in the second telegram of a block
  (`SecondTelegramWraps`; exact condition in `RefundSafeIff`).
- A telegram over the block gas limit leaves the builder with a receipt that no
  validator reproduces (`BuilderAgreesIff`, `ExtraReceipts`, `OverLimitDisagrees`).
- Funds sent to an account in the telegram that destroys it disappear
  (`WriteConservesIff`, `FeeIsBurned`, `OwnBeneficiaryBurns`).
- The gas limit check measures distance modulo 2^64 (`AcceptsIff`,
  `CollapsedLimitIsAccepted`).
- A poll that overlaps the removal of its filter leaves a timeout that never
  goes away (`RefreshFilterTimeout`, `PolledWhileRemoved`).
- A filter that is polled between the worker's look-up and its timer is removed
  at its old time (`TimeoutTurn`, `RefreshedIsRemoved`).
- The Merkle checker does not reset its hasher, so a used one refuses what a
  fresh one accepts (`GeneratedIsAcceptedIff`, `UsedHasherIsRefused`); inner nodes
  and a doubled last leaf are accepted as leaves (`NodeIsAcceptedIff`,
  `LastLeafTwice`), and indices from 2^63 on are not bounded
  (`HighHalfAcceptsIff`).

## Model

| member | source | states |
|---|---|---|
| `Quorum.SafeIff` | edge-matrix/consensus/ibft/validators.go:10-49 | a quorum size makes every two quorums share a correct validator, whichever f validators are faulty, if and only if 2q > n + f |
| `Quorum.BadQuorums` | edge-matrix/consensus/ibft/validators.go:10-49 | below that size, two quorums and a set of f faulty validators that contains all they share (the counterexample family) |
| `Quorum.OptimalIsSafe` | edge-matrix/consensus/ibft/validators.go:35-49 | the optimal size is safe against the maximal number of faulty validators, and the correct validators alone reach it |
| `Quorum.OptimalIsLeast` | edge-matrix/consensus/ibft/validators.go:35-49 | no smaller size is safe, except for three validators, where the code asks for all of them |
| `Quorum.LegacyIsSafeIff` | edge-matrix/consensus/ibft/validators.go:28-32 | the legacy size 2F+1 is safe if and only if n leaves remainder 1 modulo 3 |
| `Quorum.CorrectInBoth` | edge-matrix/consensus/ibft/consensus_backend.go:148-188 | any two quorums of a safe size have a correct validator in common |
| `ValidatorSet.Set.Index` | edge-matrix/validators/set.go:67-75 | the first position of an address, -1 exactly when it is absent |
| `ValidatorSet.Set.Add` | edge-matrix/validators/set.go:84-96 | appends exactly when the type fits and the address is new, so addresses stay distinct; otherwise changes nothing and says why |
| `ValidatorSet.Set.Del` | edge-matrix/validators/set.go:99-113 | removes the one entry of an address and keeps the order of the others; both error cases |
| `ValidatorSet.Set.Merge` | edge-matrix/validators/set.go:116-134 | the old list stays in front and the members become the union, still distinct |
| `ValidatorSet.ProposersRotate` | edge-matrix/consensus/ibft/validators.go:51-73 | rounds less than n apart have different proposers, whatever the last proposer was |
| `ValidatorSet.ProposerIndexAt` | edge-matrix/consensus/ibft/validators.go:51-73 | the proposer index advances by one per round around the list |
| `IbftMessages.HasUniqueSenders` | edge-matrix/edge-ibft/messages/helpers.go:125-143 | true exactly when no two messages have the same sender (and the list is not empty) |
| `IbftMessages.HaveSameProposalHash` | edge-matrix/edge-ibft/messages/helpers.go:145-180 | true exactly for lists whose known hashes agree, including the treatment of messages without a hash at the front |
| `IbftMessages.SendersCount` | edge-matrix/edge-ibft/messages/helpers.go:125-143 | a list with unique senders has as many senders as messages |
| `IbftStore.Messages.AddMessage` | edge-matrix/edge-ibft/messages/messages.go:64-76 | one message per sender, type and view; a later one replaces the earlier; every other slot is untouched |
| `IbftStore.Messages.PruneByHeight` | edge-matrix/edge-ibft/messages/messages.go:137-164 | exactly the slots of lower heights are emptied |
| `IbftStore.Messages.GetValidMessages` | edge-matrix/edge-ibft/messages/messages.go:183-213 | returns exactly the valid messages of the slot, with distinct senders, and forgets exactly the invalid ones |
| `IbftStore.Messages.GetExtendedRCC` | edge-matrix/edge-ibft/messages/messages.go:216-260 | returns the valid messages of the highest round above 0 that passes the quorum test, or nothing when no round does; it panics exactly when a message of a round it examines makes the check panic |
| `IbftChecks.CheckPC` | edge-matrix/edge-ibft/core/ibft.go:1115-1205 | the loop-by-loop check decides the one-line definition of a valid prepared certificate |
| `IbftChecks.CheckMatches` | edge-matrix/edge-ibft/core/ibft.go:487-522 | decides whether a certificate and the proposal sent along belong together, and says when the comparison panics for want of a proposal |
| `IbftChecks.CheckProposal` | edge-matrix/edge-ibft/core/ibft.go:604-757 | decides acceptability of a proposal after round 0 as defined by its round-change certificate; what acceptability guarantees is in `RunHoldsValid`, `LockCarryOver` and `RunInvariant` |
| `IbftChecks.LatestLockIndex` | edge-matrix/edge-ibft/core/ibft.go:716-757 | the scan finds the last of the locks with the highest round, and fails to find one exactly when there is none |
| `IbftChecks.BuiltPCPassesIff` | edge-matrix/edge-ibft/core/ibft.go:825-859 | a certificate built by a node passes the receivers' check for exactly the later round limits, and only if no proposer's PREPARE is in it |
| `IbftChecks.ReceivedPCPassesIff` | edge-matrix/edge-ibft/core/ibft.go:1115-1205 | the same after transport, where an empty list arrives as a missing one; with a quorum of two or more it never is empty |
| `IbftChecks.LockCarryOver` | edge-matrix/edge-ibft/core/ibft.go:660-757 | if validators that meet every quorum all report locks on h at round r or later, and no other lock of that age differs, every accepted proposal has hash h |
| `IbftChecks.LockedRoundAcceptsIff` | edge-matrix/edge-ibft/core/ibft.go:660-757 | since the hash covers the round, a proposal whose certificate holds any well-hashed lock is refused: acceptance if and only if there is none |
| `IbftGuarantees.CertificateIff` | edge-matrix/edge-ibft/core/ibft.go:1115-1205 | a certificate passes if and only if it holds the proposal of one earlier view by its proposer and authentic PREPAREs of distinct others for that view, a quorum together, with one hash |
| `IbftGuarantees.AcceptableIff` | edge-matrix/edge-ibft/core/ibft.go:604-757 | a proposal is accepted in a view if and only if it is by the view's proposer, who is another, for a block that the chain accepts, with its hash in this round and, after round 0, a quorum of authentic ROUND-CHANGEs for the view and the hash of the latest lock among them, if there is one |
| `IbftGuarantees.QuorumIff` | edge-matrix/consensus/ibft/consensus_backend.go:148-188 | how many messages of each kind are enough, and when the proposer's share is implied |
| `IbftGuarantees.JumpIff` | edge-matrix/edge-ibft/core/ibft.go:441-483 | a certificate moves a node if and only if it is a quorum of delivered, authentic ROUND-CHANGEs of one round above zero that pass their check, and a message for a higher round has set off the search; the guarded move also needs a higher round |
| `IbftNode.PreviousProposal` | edge-matrix/edge-ibft/core/ibft.go:971-1057 | the proposer repeats the first prepared proposal of the certificate, not the latest, and only if there is one |
| `IbftNode.RunInvariant` | edge-matrix/edge-ibft/core/ibft.go:295-399 | in every state of every sequence: fixed height; prepare, commit and fin have an accepted proposal of this round; lock and prepared proposal come together, from no later round; fin has seals of a quorum of distinct validators on the accepted hash |
| `IbftNode.RunIsForward` | edge-matrix/edge-ibft/core/ibft.go:525-602 | between any two states of a sequence the round never falls, and within a round the phase only advances |
| `IbftNode.NextKeepsInv` | edge-matrix/edge-ibft/core/ibft.go:295-399 | each of the eight kinds of step keeps that invariant |
| `IbftNode.Node.constructor` | edge-matrix/edge-ibft/core/state.go:34-57 | a node starts in the initial state |
| `IbftNode.Node.Clear` | edge-matrix/edge-ibft/core/state.go:69-84 | a sequence starts from the initial state of its height, with exactly the stored messages of that height or later |
| `IbftNode.Node.Receive` | edge-matrix/edge-ibft/core/ibft.go:1067-1107 | admits exactly messages of valid senders for this height and round or later |
| `IbftNode.Node.Fetch` | edge-matrix/edge-ibft/messages/messages.go:183-213 | what the store hands over is valid, of the right type and view, from distinct senders, and complete |
| `IbftNode.Node.MoveToNewRound` | edge-matrix/edge-ibft/core/ibft.go:960-969 | moves to a round with no proposal and keeps the lock |
| `IbftNode.Node.StartAsValidator` | edge-matrix/edge-ibft/core/ibft.go:368-399 | a non-proposer's round start is the start step of the machine |
| `IbftNode.Node.BuildProposal` | edge-matrix/edge-ibft/core/ibft.go:971-1057 | from a certificate of any one round: the proposal is one that the machine allows its proposer, a reported prepared block again and otherwise the new one, with the certificate attached |
| `IbftNode.Node.StartAsProposer` | edge-matrix/edge-ibft/core/ibft.go:368-399 | the proposer's start is the propose step: own proposal taken, phase prepare, proposal multicast; without a hash nothing but the start is noted |
| `IbftNode.OtherRoundIsRefused` | edge-matrix/edge-ibft/core/ibft.go:604-757 | if the certificate was of another round than the proposal, no validator accepts the proposal |
| `IbftNode.Node.HandlePrePrepare` | edge-matrix/edge-ibft/core/ibft.go:761-782 | finds a proposal that passes validation for the view if and only if the store has one |
| `IbftNode.Node.RunNewRound` | edge-matrix/edge-ibft/core/ibft.go:553-602 | is the accept step of the machine, with its PREPARE, exactly when an acceptable proposal is stored |
| `IbftNode.Node.CollectPrepares` | edge-matrix/edge-ibft/core/ibft.go:825-859 | enough PREPAREs if and only if quorum minus one distinct senders match the proposal |
| `IbftNode.Node.HandlePrepare` | edge-matrix/edge-ibft/core/ibft.go:825-859 | is the prepare step of the machine, with its lock and its COMMIT, exactly when enough PREPAREs are stored |
| `IbftNode.Node.HandleCommit` | edge-matrix/edge-ibft/core/ibft.go:902-938 | is the commit step of the machine, with its seals, exactly when a quorum of sealed COMMITs is stored |
| `IbftNode.Node.ExpireRound` | edge-matrix/edge-ibft/core/ibft.go:344-351 | moves to the next round and announces it with the latest lock |
| `IbftNode.Node.FollowProposal` | edge-matrix/edge-ibft/core/ibft.go:331-338 | jumps to a proposal of a higher round; the PREPARE it sends still carries the round left behind |
| `IbftNode.Node.FollowCertificate` | edge-matrix/edge-ibft/core/ibft.go:339-343 | moves to the round of a certificate with no proposal, and keeps the lock |
| `IbftNode.Node.HandleRoundChange` | edge-matrix/edge-ibft/core/ibft.go:441-483 | what the certificate search finds; its round is above the node's own if and only if some round above has a certificate; it panics if and only if a ROUND-CHANGE of an examined round has a valid certificate and no proposal |
| `IbftNode.CheckRoundChange` | edge-matrix/edge-ibft/core/ibft.go:450-461 | the check of one stored ROUND-CHANGE: passes, fails, or panics, the last exactly for a valid certificate without a proposal |
| `IbftNode.PanicsIff` | edge-matrix/consensus/ibft/verifier.go:186-192 | the proposal that is dereferenced is missing if and only if the certificate is valid and comes without one |
| `IbftNetwork.ReachableInv` | edge-matrix/edge-ibft/core/ibft.go:295-399 | an invariant of the whole network over every execution with Byzantine senders: node invariants, one COMMIT hash per correct validator and round, unforgeability, recorded finals |
| `IbftNetwork.StepInv` | edge-matrix/edge-ibft/core/ibft.go:825-938 | every step of a correct node or of the adversary keeps it |
| `IbftNetwork.AgreementInRound` | edge-matrix/edge-ibft/core/ibft.go:902-938 | two blocks finalised in the same round of any execution have the same hash |
| `IbftNetwork.FinNodesAgree` | edge-matrix/edge-ibft/core/ibft.go:941-958 | two correct nodes that are in fin in the same round hold proposals with the same hash |
| `IbftValidity.RunHoldsValid` | edge-matrix/edge-ibft/core/ibft.go:604-634 | in every state of every run, guarded or not, a node past new round that is not its proposer holds a block that the chain accepts |
| `IbftValidity.FirstProposalAcceptedIff` | edge-matrix/edge-ibft/core/ibft.go:636-658 | the first proposal of a proposer is accepted by exactly the other validators, and exactly if the chain accepts its block |
| `IbftValidity.FinalsAreValid` | edge-matrix/edge-ibft/core/ibft.go:604-634 | over every execution with two more in a quorum than are faulty, every finalised hash is the hash, for its round, of a block that the chain accepts |
| `IbftProgress.ValidBlockCanBeFinal` | edge-matrix/edge-ibft/core/ibft.go:295-399 | for every setting with a correct proposer and enough other correct validators, and every block that the chain accepts, there is an execution that finalises it in round 0 |
| `IbftAgreement.AgreementAcrossRounds` | edge-matrix/edge-ibft/core/ibft.go:660-757 | over every execution in which no faulty validator sends PREPARE with a proposal hash of a round it proposes in, and hashes separate rounds: all finalised blocks of a height are of one round and hash |
| `IbftAgreement.ReachableLockInv` | edge-matrix/edge-ibft/core/ibft.go:660-757 | the lock invariant behind it: every round accepted after a COMMIT is backed by round changes that would have shown the lock |
| `IbftAgreement.CorrectAreSilent` | edge-matrix/edge-ibft/core/ibft.go:553-602 | correct validators meet that assumption in every execution, also when they jump from a round they propose in to a later proposal |
| `IbftAgreement.HonestRoundChangePasses` | edge-matrix/edge-ibft/core/ibft.go:441-483 | under the same assumption every ROUND-CHANGE of a correct validator passes the receivers' checks |
| `IbftAgreement.OptimalQuorumSuffices` | edge-matrix/consensus/ibft/validators.go:35-49 | the optimal quorum meets what the agreement theorems assume, for two or more validators |
| `IbftCounterexamples.UnguardedJumpCommitsTwice` | edge-matrix/edge-ibft/core/ibft.go:246-292 | without the guard that a certificate's round be higher, a concrete sequence of one correct node goes back a round and sends two different COMMITs for it |
| `IbftCounterexamples.HeadlessPanics` | edge-matrix/edge-ibft/core/ibft.go:450-461 | a concrete message of one validator that panics the check: a valid certificate, and no proposal |
| `IbftCounterexamples.LockedBlockIsRefused` | edge-matrix/edge-ibft/core/ibft.go:660-757 | a concrete round in which the locked block, proposed again with valid locks on it, is refused |
| `State.CommitRefines` | edge-matrix/state/txn.go:536-620 | applying the commit list to the parent state gives, at every address, what the cleaned overlay reads, with storage settled |
| `State.ReadsAgree` | edge-matrix/state/txn.go:81-136 | balance, nonce, code, storage and committed storage reads are those of one plain account per address, zero and empty where there is none |
| `State.ApplyAllAt` | edge-matrix/state/state.go:140-161 | what applying a commit list does to one address: deletion, new contents, or nothing |
| `StateRuns.StepSimulates` | edge-matrix/state/txn.go:118-343 | every overlay operation does to the represented state what the direct reference state does |
| `StateRuns.RunSimulates` | edge-matrix/state/txn.go:61-136 | so does every sequence of operations, snapshots and reverts |
| `StateRuns.RunAndCommit` | edge-matrix/state/txn.go:572-620 | the committed state after any such sequence equals the reference state after the same sequence, accounts deleted and recreated included |
| `StorageGas.SetStorageRefund` | edge-matrix/state/txn.go:231-301 | the whole effect of one storage write: which state it leaves and by how much it moves the refund counter |
| `StorageGas.PathIndependent` | edge-matrix/state/runtime/evm/instructions.go:485-540 | cost minus net refund of any sequence of writes, on any mix of slots, is n·base + φ(original, final) − φ(original, initial) per slot, for all three meterings |
| `StorageGas.ForksPathIndependent` | edge-matrix/state/txn.go:231-301 | the same for every combination of forks, with the base price that each puts in force |
| `StorageGas.OneCall` | edge-matrix/state/txn.go:231-301 | one write changes the potential of its slot by its net cost |
| `StorageGas.DoKeepsFloor` | edge-matrix/state/txn.go:231-301 | a write keeps the refund counter at 15000 per slot emptied, or above |
| `StorageGas.FloorPreventsUnderflow` | edge-matrix/state/txn.go:445-453 | with that floor a refund is never taken back that is not there |
| `RefundRuns.RunKeepsFloor` | edge-matrix/state/txn.go:445-484 | the floor holds over every sequence of operations, snapshots and reverts of one telegram |
| `RefundRuns.RefundSafeIff` | edge-matrix/state/txn.go:445-453 | from an empty counter, no continuation can underflow if and only if no slot that was filled in the parent state is empty now |
| `RefundRuns.FirstTelegramSafe` | edge-matrix/state/txn.go:445-453 | the first telegram of a block is safe |
| `RefundRuns.SecondTelegramWraps` | edge-matrix/state/txn.go:536-570 | a concrete second telegram whose refund counter wraps to 2^64 − 15000, because cleaning drops the counter and keeps the originals |
| `Txn.Txn.Snapshot` | edge-matrix/state/txn.go:61-69 | records the present view under the next id |
| `Txn.Txn.RevertToSnapshot` | edge-matrix/state/txn.go:71-79 | restores balances, nonces, storage and refund of any snapshot, and its logs as well if the snapshot was taken in stack order |
| `Txn.Txn.Put` | edge-matrix/state/txn.go:118-136 | stores a fresh object and leaves every object of every older tree unchanged |
| `Txn.Txn.Fetched` | edge-matrix/state/txn.go:90-136 | reads give a fresh copy whose value is what the overlay shows |
| `Txn.Txn.DoAddBalance` | edge-matrix/state/txn.go:150-155 | the object update is the specified overlay update |
| `Txn.Txn.DoSubBalance` | edge-matrix/state/txn.go:157-173 | the same for subtraction, with the not-enough-funds case |
| `Txn.Txn.DoIncrNonce` | edge-matrix/state/txn.go:348-353 | the object update is the specified overlay update |
| `Txn.Txn.DoSetCode` | edge-matrix/state/txn.go:374-380 | the object update is the specified overlay update |
| `Txn.Txn.DoSetState` | edge-matrix/state/txn.go:304-320 | the object update is the specified overlay update |
| `Txn.Txn.DoSuicide` | edge-matrix/state/txn.go:419-436 | marks once, empties the balance, and says whether it did |
| `Txn.Txn.DoCreateAccount` | edge-matrix/state/txn.go:519-533 | a recreated account keeps only the balance |
| `Txn.Txn.DoSetBalance` | edge-matrix/state/txn.go:176-180 | the object update is the specified overlay update |
| `Txn.Txn.DoSetNonce` | edge-matrix/state/txn.go:355-359 | the object update is the specified overlay update |
| `Txn.Txn.DoTouchAccount` | edge-matrix/state/txn.go:486-490 | the object update is the specified overlay update |
| `Txn.Txn.DoAddSealingReward` | edge-matrix/state/txn.go:138-147 | the object update is the specified overlay update: a destroyed account starts afresh |
| `Txn.Txn.Read` | edge-matrix/state/txn.go:81-116 | what the object shows is the overlay it stands for, at every address, with logs and refund |
| `Txn.Txn.DoEmitLog` | edge-matrix/state/txn.go:192-210 | appends to the log list, which may write into memory shared with older lists |
| `Txn.Txn.DoTakeLogs` | edge-matrix/state/txn.go:455-464 | hands the logs out and empties the list |
| `Txn.Txn.DoRefund` | edge-matrix/state/txn.go:445-453 | adds to or takes from the refund counter |
| `Txn.Txn.DoSetStorage` | edge-matrix/state/txn.go:231-301 | status and state are those of the metered write |
| `Txn.Txn.DoCleanDelete` | edge-matrix/state/txn.go:536-570 | the two-pass loop marks exactly the suicided and, on demand, the empty accounts, and drops the refund |
| `Txn.Txn.Commit` | edge-matrix/state/txn.go:572-620 | cleans and lists every touched object exactly once, with its final contents |
| `Txn.AppendKeepsIff` | edge-matrix/state/txn.go:192-210 | appending in place keeps another list's contents if and only if that list does not reach beyond the shared part |
| `Txn.RevertOutOfOrder` | edge-matrix/state/txn.go:71-79 | with arrays that double when they are full, a concrete use of snapshots out of stack order after which the logs are not the ones of the snapshot |
| `TxnRuns.DoOp` | edge-matrix/state/txn.go:118-343 | every operation does to the overlay object what it does to the overlay |
| `TxnRuns.DoAll` | edge-matrix/state/executor.go:775-783 | any run of operations and nested calls, with a snapshot before each call and a revert after each that fails, leaves the object at the overlay that the successful ones alone give; snapshots taken before it stay usable |
| `TxnRuns.Undo` | edge-matrix/state/txn.go:71-79 | reverting to a snapshot taken on top of others restores the view and keeps those others |
| `Balances.AddTotal` | edge-matrix/state/txn.go:150-155 | adds to one balance and to the total, and to nothing else |
| `Balances.SubTotal` | edge-matrix/state/txn.go:157-173 | takes from the total exactly what was taken |
| `Balances.CleanTotal` | edge-matrix/state/txn.go:536-570 | cleaning never raises the total, and keeps it if and only if no suicided account was paid afterwards |
| `Balances.SelfdestructTotal` | edge-matrix/state/executor.go:766-773 | self-destruction keeps the total if and only if the beneficiary is another account or the balance is zero |
| `Balances.OwnBeneficiaryBurns` | edge-matrix/state/executor.go:766-773 | a concrete account that names itself as beneficiary: its balance is gone from the sum |
| `Executor.TransferTotal` | edge-matrix/state/executor.go:552-567 | a transfer keeps the total, sender and recipient equal or not |
| `Executor.CallTotal` | edge-matrix/state/executor.go:570-607 | a call keeps the total whether it succeeds, fails or cannot pay, for any interpreter that does |
| `Executor.CreateTotal` | edge-matrix/state/executor.go:626-711 | so does a contract creation, collisions and rejected code included |
| `Executor.GasSplits` | edge-matrix/state/runtime/runtime.go:116-126 | used and left gas add up to the limit after refunds, at most half of what was used |
| `Executor.ApplyConserves` | edge-matrix/state/executor.go:355-511 | applying any telegram keeps the sum of all balances, on success and on every error, for any coincidence of sender, recipient and coinbase (balances are natural numbers in the model, so none goes below zero) |
| `Executor.PaymentMoves` | edge-matrix/state/executor.go:441-511 | with an interpreter that changes nothing, exactly who gains and loses what in a call: value from sender to recipient if it succeeds, fee from sender to coinbase either way, one nonce up, for any coincidence of the three |
| `Executor.CallMoves` | edge-matrix/state/executor.go:570-607 | a call's value moves exactly when it does not fail |
| `Executor.WriteConservesIff` | edge-matrix/state/executor.go:272-326 | writing a telegram keeps the sum if and only if no account that the execution leaves marked for deletion holds money, is the sender with gas money to come back, or is the coinbase with a fee due; it never raises the sum |
| `Executor.FeeIsBurned` | edge-matrix/state/executor.go:272-326 | a concrete telegram to a contract that is the coinbase and destroys itself: its fee is gone from the sum |
| `Readings.ReadingIs` | edge-matrix/state/txn.go:81-136 | balance, nonce, code, slots and mark of an account as one reading: equal readings answer every question alike |
| `Readings.CleanReads` | edge-matrix/state/txn.go:536-570 | cleaning takes away exactly the marked accounts and the touched empty ones |
| `ExecutorLaws.AppliesIff` | edge-matrix/state/executor.go:875-919 | a legacy telegram is applied if and only if its nonce is the sender's and the sender's balance covers price times gas; a state telegram if and only if it has the fixed form; otherwise nothing changes |
| `ExecutorLaws.CallOutcome` | edge-matrix/state/executor.go:570-607 | a call for every interpreter: refused for depth or funds with all gas left and every reading as before; otherwise the interpreter is run on the overlay with exactly the value moved, and a failed run leaves nothing |
| `ExecutorLaws.CallWithoutTransfer` | edge-matrix/state/executor.go:570-607 | a call that transfers nothing shows the interpreter every reading as it was |
| `ExecutorLaws.CreateOutcome` | edge-matrix/state/executor.go:626-711 | a creation for every interpreter: what it sees; after success the return value is the code at the new address and every other reading is what the interpreter left; after a failure or a taken address only the caller's nonce is up, with all gas gone where the code takes it; the two failures that leave traces |
| `ExecutorLaws.TelegramOutcome` | edge-matrix/state/executor.go:441-511 | a whole telegram for every interpreter: gas bought, the contract it runs (recipient's code and telegram's input, or the input at the address for the nonce) and its context, the refund as the lesser of the counter and half the gas used, rest and fee settled, at every address |
| `ExecutorLaws.WriteFailsIff` | edge-matrix/state/executor.go:272-295 | which error a write gives: no recoverable sender, or not applicable |
| `ExecutorLaws.WriteOutcome` | edge-matrix/state/executor.go:272-326 | the receipt tells gas, running total, success, logs and, for a creation, the address; logs and refund counter start afresh |
| `ExecutorLaws.WriteReads` | edge-matrix/state/executor.go:272-326 | after the write every reading is what the telegram left, except that marked and empty accounts are gone |
| `ExecutorLaws.CreationIsThere` | edge-matrix/state/executor.go:318-320 | the address in the receipt of a successful creation is where its code is |
| `ExecutorLaws.FailedReceipt` | edge-matrix/state/executor.go:240-269 | a telegram that is not run leaves a failed receipt without gas and changes no reading |
| `BlockBuilding.FailedWriteKeeps` | edge-matrix/state/executor.go:272-326 | a write that fails leaves overlay, receipts, gas and context as they were |
| `BlockBuilding.WireWritesSame` | edge-matrix/state/executor.go:272-326 | a telegram whose sender was stripped in transport is written with the same effect |
| `BlockBuilding.BuilderAgreesIff` | edge-matrix/consensus/ibft/consensus_backend.go:319-429 | replaying the builder's executed list gives the builder's overlay, receipts and gas if and only if no telegram it saw left a receipt for exceeding the block gas limit |
| `BlockBuilding.OverLimitDisagrees` | edge-matrix/consensus/ibft/consensus_backend.go:386-429 | a concrete telegram over the block gas limit after which the replay differs from the build |
| `BlockBuilding.ExtraReceipts` | edge-matrix/state/executor.go:240-269 | the builder has one receipt per executed telegram under exactly that condition |
| `BlockBuilding.ReceiptsAccumulate` | edge-matrix/state/executor.go:110-135 | the receipts of a block follow its telegrams one to one, and each carries the gas used up to it modulo 2^64 (zero for a telegram over the limit) |
| `BlockBuilding.NeverStops` | edge-matrix/consensus/ibft/consensus_backend.go:386-429 | the gas-limit-reached outcome never occurs, as the deduction from the gas pool is not made |
| `BlockBuilding.StatusMeans` | edge-matrix/consensus/ibft/consensus_backend.go:386-429 | the builder fails a telegram over the limit or without a sender, and keeps or skips a legacy one by the sender's nonce and balance alone |
| `Replay.NoncesFollow` | edge-matrix/state/executor.go:392-400 | if the interpreter leaves a sender's nonce alone, the telegrams that an accepted block executes for the sender carry the nonces after it one by one, modulo 2^64 |
| `Replay.NoReplay` | edge-matrix/state/executor.go:392-400 | so none of them is executed twice |
| `Replay.NoncesIncrease` | edge-matrix/state/executor.go:392-400 | for any interpreter that never lowers the sender's nonce they strictly increase, below the last nonce |
| `Transitions.Transition.Run` | edge-matrix/state/executor.go:537-550 | running the interpreter's script on the overlay object gives the overlay and the result of the interpreter |
| `Transitions.Transition.DoTransfer` | edge-matrix/state/executor.go:552-567 | moves the amount on the overlay object, or leaves it as it was |
| `Transitions.Transition.DoApplyCall` | edge-matrix/state/executor.go:570-607 | the call with its snapshot and its revert on the overlay object is the pure call, for every script of nested calls |
| `Transitions.Transition.DoApplyCreate` | edge-matrix/state/executor.go:626-711 | the creation with its snapshot and its three reverts is the pure creation, the failure without a revert before Homestead included |
| `Transitions.Transition.DoCheckAndPay` | edge-matrix/state/executor.go:875-919 | both checks of a telegram and the purchase of its gas; a failed check leaves the object as it was |
| `Transitions.Transition.DoApply` | edge-matrix/state/executor.go:441-511 | on the overlay object: the payment, the execution and the settlement in place give the state and result of the pure step |
| `Transitions.Transition.DoWrite` | edge-matrix/state/executor.go:272-326 | on the overlay object, with logs taken and objects cleaned in place: the pure write, both errors included |
| `Transitions.Transition.DoWriteFailedReceipt` | edge-matrix/state/executor.go:240-269 | on the overlay object: the pure failed receipt |
| `Transitions.Transition.ProcessBlock` | edge-matrix/state/executor.go:110-135 | the validator's loop is the specified replay, and fails exactly when it does |
| `Transitions.Transition.WriteTransaction` | edge-matrix/consensus/ibft/consensus_backend.go:386-429 | the builder's treatment of one telegram is the specified one |
| `Heap.HeadIsLeast` | edge-matrix/telepool/queue.go:107-153 | the first element of a slice-backed heap is a least one |
| `Heap.Push` | edge-matrix/telepool/queue.go:137-144 | pushing keeps the heap and adds one element |
| `Heap.Pop` | edge-matrix/telepool/queue.go:89-100 | popping takes a least element and keeps the heap of the others |
| `PoolAccount.Prune` | edge-matrix/telepool/queue.go:49-61 | exactly the telegrams below the nonce go; the rest stays a queue |
| `PoolAccount.Account.Enqueue` | edge-matrix/telepool/account.go:226-250 | accepts exactly when there is room and the nonce lies in the window (64-bit wrap of its end included), and which error otherwise; keeps the nonce window |
| `PoolAccount.Account.PopPromoted` | edge-matrix/telepool/queue.go:89-100 | takes the first of the line |
| `PoolAccount.Account.Promote` | edge-matrix/telepool/account.go:257-306 | moves exactly the maximal consecutive run from the expected nonce, the best-priced of each nonce, and prunes the others of those nonces; keeps the window |
| `PoolAccount.Account.Reset` | edge-matrix/telepool/account.go:190-223 | both queues lose exactly what is below the nonce, the line loses a prefix, the expected nonce never falls; promotion is signalled exactly if the nonce is new and its telegram waits |
| `PoolAccount.Account.Clear` | edge-matrix/telepool/telepool.go:834-846 | empties both queues and sets the expected nonce |
| `PoolAccount.Account.PruneHole` | edge-matrix/telepool/telepool.go:667-693 | empties the enqueued queue exactly when the expected telegram is missing from it |
| `PoolAccount.Account.LowestTelegram` | edge-matrix/telepool/account.go:320-336 | a telegram of least nonce, none exactly for an empty account |
| `SlotGauge.SlotsRequired` | edge-matrix/telepool/slot_gauge.go:40-47 | the loop sums the 32 KB slots of a list |
| `SlotGauge.SlotsHold` | edge-matrix/telepool/slot_gauge.go:40-47 | as many slots of 32 KB as hold the telegram, and no more |
| `SlotGauge.GaugeFollows` | edge-matrix/telepool/slot_gauge.go:24-31 | adding, and subtracting by two's complement, follow the true sum modulo 2^64 |
| `PoolBooks.NoSharedHash` | edge-matrix/telepool/telepool.go:667-1043 | two queued telegrams with one hash are the same entry of the same queue |
| `PoolBooks.InflightHasAccount` | edge-matrix/telepool/telepool.go:491-504 | the account of a telegram on its way is open, so its delivery finds one |
| `PoolBooks.LeaveBooks` | edge-matrix/telepool/telepool.go:735-750 | telegrams that leave queue, index and gauge together keep the books |
| `PoolBooks.TakeBooks` | edge-matrix/telepool/telepool.go:785-808 | a head handed to a block leaves queue, gauge and counter and stays in the index |
| `PoolBooks.MinedBooks` | edge-matrix/telepool/telepool.go:895-948 | mined telegrams leave the index, and none of them is still queued |
| `PoolBooks.ResetPool` | edge-matrix/telepool/telepool.go:988-1043 | one account's reset in a pool whose index, gauge and counter lag behind by what was pruned |
| `Pool.TelegramPool.constructor` | edge-matrix/telepool/telepool.go:181-227 | an empty pool is in order |
| `Pool.TelegramPool.CreateAccountOnce` | edge-matrix/telepool/telepool.go:574-589 | opens an account at the chain's nonce once, and otherwise changes nothing |
| `Pool.TelegramPool.AddTele` | edge-matrix/telepool/telepool.go:420-572 | accepted if and only if size, both signatures, nonce window, pressure, room in slots of 32 KB, edge call and hash are all in order, written out; which error comes first; what enters names the sender of its signature; the pool stays in order |
| `Pool.TelegramPool.ValidateTele` | edge-matrix/telepool/telepool.go:508-572 | the checks of a telegram by itself and against the chain, in the order of the code |
| `Pool.TelegramPool.CheckRoom` | edge-matrix/telepool/telepool.go:427-439 | the checks against the pool: nothing from the future above 80 percent, and never more slots than there are |
| `Pool.TelegramPool.HandleEnqueue` | edge-matrix/telepool/telepool.go:699-730 | delivers any telegram on its way: enqueues exactly one that fits its account and otherwise takes it out of the index; promotion is signalled exactly for one at the expected nonce |
| `Pool.TelegramPool.Remove` | edge-matrix/telepool/lookup_map.go:31-38 | exactly the given hashes leave the index |
| `Pool.TelegramPool.HandlePromote` | edge-matrix/telepool/telepool.go:735-750 | the line grows by the promoted run, pending by its length, the index loses the pruned |
| `Pool.TelegramPool.Prepare` | edge-matrix/telepool/telepool.go:754-767 | the executables are exactly the heads of all promoted queues, each once |
| `Pool.TelegramPool.Peek` | edge-matrix/telepool/telepool.go:771-779 | takes one whose price, modulo 2^64, is highest |
| `Pool.TelegramPool.Pop` | edge-matrix/telepool/telepool.go:785-808 | the line loses its head, pending one, the demotions start again at zero, and the next head is offered |
| `Pool.TelegramPool.Drop` | edge-matrix/telepool/telepool.go:812-857 | the account is emptied and rolled back to the telegram's nonce; index, gauge and pending follow |
| `Pool.TelegramPool.Demote` | edge-matrix/telepool/telepool.go:862-881 | counts up to ten, then drops |
| `Pool.TelegramPool.PruneHole` | edge-matrix/telepool/telepool.go:667-693 | one account is rid of its hole, and index and gauge of what goes |
| `Pool.TelegramPool.PruneHoles` | edge-matrix/telepool/telepool.go:667-693 | after the sweep no account has a hole, and accounts without one are unchanged |
| `Pool.TelegramPool.ResetAccounts` | edge-matrix/telepool/telepool.go:988-1043 | all named accounts are reset, the others unchanged, and after the late clean-up the pool is in order |
| `Pool.TelegramPool.LatestNonces` | edge-matrix/telepool/telepool.go:895-935 | exactly the senders of mined telegrams, with the chain's nonce |
| `Pool.TelegramPool.ProcessEvent` | edge-matrix/telepool/telepool.go:895-948 | if the chain's nonces exceed those mined, the pool is in order again, no mined hash is in the index, and each sender's queues hold exactly what is not below its nonce |
| `Pool.TelegramPool.CountSkip` | edge-matrix/telepool/telepool.go:952-985 | which of the four outcomes a block has for an account: reset, nothing, counted, or dropped at its least nonce |
| `Pool.TelegramPool.UpdateSkips` | edge-matrix/telepool/telepool.go:952-985 | only inactive accounts change, and those end up empty |
| `BlockSelection.WriteTelegram` | edge-matrix/consensus/ibft/consensus_backend.go:386-429 | what each status of the transition does to the sender's account: head popped, counted or dropped; executables stay heads, one per account; the measure does not grow |
| `BlockSelection.WriteTelegrams` | edge-matrix/consensus/ibft/consensus_backend.go:319-384 | pool and transition together: the loop ends (measure: pending plus executables), for time or lack of telegrams only; for every sender the block holds the first part of its line; and a validator who replays the block, senders stripped, arrives at the builder's state if and only if no telegram drawn left a receipt for exceeding the gas limit |
| `BlockSelection.LineIsAdmitted` | edge-matrix/telepool/telepool.go:508-544 | every telegram in line of such a pool is one whose sender survives transport |
| `BlockSelection.SelectedAreConsecutive` | edge-matrix/consensus/ibft/consensus_backend.go:347-384 | so a sender's executed nonces are consecutive and increasing from its head |
| `BlockSelection.OneEachPeeked` | edge-matrix/telepool/telepool.go:771-779 | a peeked telegram is its account's head and no other executable is of that account |
| `MerkleTree.BuildLevel` | edge-matrix/merkle-tree/merkle_tree.go:93-112 | one round of pairing: parents, children and hashes of the level above, with the last node of an odd level paired with itself |
| `MerkleTree.NewTree` | edge-matrix/merkle-tree/merkle_tree.go:82-119 | refuses exactly the empty list; otherwise linked levels with the root hash of the data; the hasher is left with what the root was hashed from |
| `MerkleTree.Tree.FindLeaf` | edge-matrix/merkle-tree/merkle_tree.go:122-179 | the first leaf with the data, none exactly if there is none |
| `MerkleTree.Tree.GenerateProof` | edge-matrix/merkle-tree/merkle_tree.go:148-168 | the siblings on the way up from the first such leaf to the first node that has the root's hash, although siblings are told apart by hash |
| `MerkleTree.GetProofHash` | edge-matrix/merkle-tree/merkle_tree.go:205-225 | the loop is the fold of the proof over the hash of whatever the hasher held, followed by the leaf |
| `MerkleTree.VerifyProof` | edge-matrix/merkle-tree/merkle_tree.go:181-184 | with a hasher of its own: accepts exactly what the definition with nothing pending accepts |
| `MerkleTree.VerifyProofUsing` | edge-matrix/merkle-tree/merkle_tree.go:187-202 | with a caller's hasher: accepts exactly non-empty leaves with an index below 2^length whose fold, started after what the hasher held, is the root, and which error otherwise; what the hasher holds afterwards |
| `MerkleTree.NewNode` | edge-matrix/merkle-tree/merkle_tree.go:47-64 | resets the hasher, hashes data or both children, and leaves the input in the hasher |
| `Merkle.PathFolds` | edge-matrix/merkle-tree/merkle_tree.go:148-225 | the generated siblings fold to the root |
| `Merkle.GeneratedIsAcceptedIff` | edge-matrix/merkle-tree/merkle_tree.go:187-202 | a generated proof is accepted if and only if the leaf is not empty, its index is below 2 to the length of the proof, and the hasher was empty or the check collides with the tree at a step of this proof |
| `Merkle.ClearIsAcceptedIff` | edge-matrix/merkle-tree/merkle_tree.go:187-202 | with no early stop and an empty hasher it is accepted, as far as the checker's power of two fits a signed 64-bit number |
| `Merkle.EarlyStopIsRefused` | edge-matrix/merkle-tree/merkle_tree.go:157-165 | with a hash that collides with the root's, the proof is too short for its own index and refused |
| `Merkle.AcceptedIsMember` | edge-matrix/merkle-tree/merkle_tree.go:187-225 | an accepted proof of full depth for an index below the leaf count proves the data at that index and is its only proof, or names the step at which what the checker hashed differs from what the builder hashed and has the same hash |
| `Merkle.FoldsIff` | edge-matrix/merkle-tree/merkle_tree.go:205-225 | a proof of the tree's depth folds to the root if and only if it opens the leaf its index reaches, or collides with the tree at a step of its own |
| `Merkle.AcceptsIff` | edge-matrix/merkle-tree/merkle_tree.go:187-225 | the same for every index, every length of proof and whatever the hasher held: exactly what is accepted |
| `Merkle.NodeIsAcceptedIff` | edge-matrix/merkle-tree/merkle_tree.go:187-225 | every node of every level is accepted as a leaf with the hashes on its way, inner nodes included, within the index bound |
| `Merkle.LastLeafTwice` | edge-matrix/merkle-tree/merkle_tree.go:93-112 | with an odd leaf count the last leaf is accepted at the index after it as well |
| `Merkle.HighHalfAcceptsIff` | edge-matrix/merkle-tree/merkle_tree.go:192-202 | an index in the upper half of the 64-bit range passes the bound as a negative number, and is accepted if and only if its lower bits fold to the root |
| `Merkle.UsedHasherIsRefused` | edge-matrix/merkle-tree/merkle_tree.go:187-225 | a concrete tree whose own hasher, used for the check, refuses the proof that a fresh one accepts |
| `Merkle.DepthIsLogarithm` | edge-matrix/merkle-tree/merkle_tree.go:93-112 | the number of levels is the binary logarithm of the leaf count, rounded up |
| `Merkle.RootOfThree` | edge-matrix/merkle-tree/merkle_tree.go:93-112 | the root of three leaves: left hash first, the odd leaf paired with itself |
| `FilterTimeouts.TimeHeap.Swap` | edge-matrix/jsonrpc/filter_manager.go:768-772 | items change places and know it |
| `FilterTimeouts.TimeHeap.AddFilter` | edge-matrix/jsonrpc/filter_manager.go:748-779 | the heap gains the filter; every item knows its position |
| `FilterTimeouts.TimeHeap.RemoveFilter` | edge-matrix/jsonrpc/filter_manager.go:752-790 | the heap loses exactly this filter, from wherever it says it is; its index becomes -1 |
| `FilterTimeouts.TimeHeap.Up` | edge-matrix/jsonrpc/filter_manager.go:748-779 | sifting up restores the order and touches only the part it may |
| `FilterTimeouts.TimeHeap.Down` | edge-matrix/jsonrpc/filter_manager.go:752-772 | sifting down restores the order, or says that the item did not move and may have to rise |
| `Heap.HoleSinks` | edge-matrix/jsonrpc/filter_manager.go:752-760 | an element put into the middle of a heap that sinks leaves its former child fitting under its parent |
| `Heap.HoleStays` | edge-matrix/jsonrpc/filter_manager.go:752-760 | one that does not sink can only have to rise |
| `FilterTimeouts.FilterManager.AddFilter` | edge-matrix/jsonrpc/filter_manager.go:572-593 | installs the filter; the heap stays exactly the installed filters without a web socket |
| `FilterTimeouts.FilterManager.Uninstall` | edge-matrix/jsonrpc/filter_manager.go:533-555 | removes the filter from map and heap, true exactly if it was installed |
| `FilterTimeouts.FilterManager.RefreshFilterTimeout` | edge-matrix/jsonrpc/filter_manager.go:566-576 | sets a new expiry; the heap goes on matching the installed filters if and only if this filter still is one |
| `FilterTimeouts.FilterManager.GetFilterChanges` | edge-matrix/jsonrpc/filter_manager.go:495-530 | a poll refreshes the filter, or says that it is missing or has a web socket |
| `FilterTimeouts.FilterManager.NextTimeoutFilter` | edge-matrix/jsonrpc/filter_manager.go:605-617 | an installed filter of least expiry, none exactly if no installed filter has a timeout |
| `FilterTimeouts.FilterManager.OnTimeout` | edge-matrix/jsonrpc/filter_manager.go:290-316 | look-up and removal with nothing in between: uninstalls the next filter; if it is not installed nothing changes and it stays the next |
| `FilterTimeouts.FilterManager.TimeoutTurn` | edge-matrix/jsonrpc/filter_manager.go:295-320 | look-up, any polls and removals by clients whose signals are lost, then the timer: which filters are left, and the removal is early if and only if the last poll in between was less than a timeout ago |
| `FilterTimeouts.RefreshedIsRemoved` | edge-matrix/jsonrpc/filter_manager.go:595-601 | a concrete filter that is polled in between and removed 59 seconds before it expires |
| `FilterTimeouts.PolledWhileRemoved` | edge-matrix/jsonrpc/filter_manager.go:495-506 | a poll that overlaps a removal leaves a filter in the heap that no timeout removes |
| `Chain.WriteKeepsIff` | edge-matrix/blockchain/blockchain.go:1212-1271 | writing a header keeps one chain (index on exactly 0..head, parent links, stored head) if and only if the header is stored already or is the next after the head |
| `Chain.CheckedIsNext` | edge-matrix/blockchain/blockchain.go:729-772 | a header that passed the parent check and is above the head extends the head, so no fork is written |
| `Chain.CheckLasts` | edge-matrix/blockchain/blockchain.go:729-772 | a check once passed stays passed, however many headers are written in between |
| `Chain.ParentCheckPassesIff` | edge-matrix/blockchain/blockchain.go:729-772 | in a store of one chain a header passes if and only if its parent is stored, its number is the next and its gas and gas limit are in order; which other errors can come |
| `Chain.RunIsOneChain` | edge-matrix/blockchain/blockchain.go:729-772 | after any number of writes of headers, each checked at any time before, the store is one chain from the genesis on, and every header covers its gas and has a limit close to its parent's |
| `Chain.GenesisIsOneChain` | edge-matrix/blockchain/blockchain.go:427-447 | the genesis alone is one chain |
| `Chain.Blockchain.constructor` | edge-matrix/blockchain/blockchain.go:427-526 | starts with the genesis as head |
| `Chain.Blockchain.ReadHeader` | edge-matrix/blockchain/blockchain.go:544-568 | the stored header, with any cache contents |
| `Chain.Blockchain.VerifyBlockParent` | edge-matrix/blockchain/blockchain.go:729-772 | the error, if any, is that of the check against the stored parent |
| `Chain.Blockchain.WriteHeaderImpl` | edge-matrix/blockchain/blockchain.go:1212-1271 | the specified write |
| `Chain.Blockchain.WriteCanonicalHeader` | edge-matrix/blockchain/storage/keyvalue.go:183-205 | header, head hash, head number and canonical entry are written together |
| `Chain.Blockchain.WriteFullBlock` | edge-matrix/blockchain/blockchain.go:882-904 | any block, checked or not: left out if it is not above the head and written otherwise; the store stays one chain if and only if it is left out or is the next; a block checked at any earlier time is one or the other, and keeps gas and limits in order |
| `Chain.Blockchain.GetHeaderByNumber` | edge-matrix/blockchain/blockchain.go:616-628 | found exactly up to the head, and canonical |
| `Chain.Blockchain.LoadHead` | edge-matrix/blockchain/blockchain.go:262-307 | a restart that has lost what was in memory finds the head again in the store |
| `Chain.Blockchain.GetHash` | edge-matrix/blockchain/blockchain.go:1169-1194 | from any header: the walk ends, with the parent itself for the number below, the canonical hash as many steps under the parent for lower ones, and zero for others or if the parent is not stored; from a header on top of the chain that is the canonical hash of every lower number |
| `GasLimit.AcceptsIff` | edge-matrix/blockchain/blockchain.go:1135-1166 | the check accepts exactly a limit that covers the gas used and, above the genesis, lies within 1/1024 of the parent's, measured around the circle of 64-bit words; which error comes first |
| `GasLimit.CalculatedIsAccepted` | edge-matrix/blockchain/blockchain.go:384-412 | whatever limit is computed for a block, the check accepts it for exactly the gas it covers |
| `GasLimit.CalculatedIsCloseIff` | edge-matrix/blockchain/blockchain.go:384-412 | the computed limit is within 1/1024 of the parent's if and only if the increase does not overflow |
| `GasLimit.CalculatedApproaches` | edge-matrix/blockchain/blockchain.go:384-412 | without a target it stays; otherwise, without overflow, it is the target if within reach and moves by exactly 1/1024 towards it if not |
| `GasLimit.CollapsedLimitIsAccepted` | edge-matrix/blockchain/blockchain.go:1135-1166 | a concrete overflow whose collapsed limit is accepted |
| `Rlp.ParseOfEncode` | edge-matrix/types/rlp_marshal.go:17-23 | parsing an encoded value followed by anything returns the value and what follows, for encodings below 2^64 bytes |
| `Rlp.NumberOfBigEndian` | edge-matrix/types/rlp_marshal.go:187-225 | numbers come back from their shortest big-endian form |
| `Rlp.FixedOfNumber` | edge-matrix/types/rlp_unmarshal.go:211-222 | eight bytes read as a number and written back are the same bytes |
| `TypedRlp.HeaderReturns` | edge-matrix/types/rlp_unmarshal.go:147-225 | a header comes back in every field |
| `TypedRlp.TelegramReturns` | edge-matrix/types/rlp_unmarshal.go:373-493 | a telegram comes back with nil numbers as zero and its sender only for state telegrams |
| `TypedRlp.StoredReturnsIff` | edge-matrix/types/rlp_unmarshal_storage.go:78-110 | a stored telegram comes back with its sender if its kind is known, and not at all otherwise |
| `TypedRlp.MarshalTelegrams` | edge-matrix/types/rlp_marshal.go:37-49 | the loop writes the tagged list |
| `TypedRlp.UnmarshalTelegrams` | edge-matrix/types/rlp_unmarshal.go:39-64 | the index loop reads the tagged list, errors and running off its end included |
| `TypedRlp.TaggedReturnsIff` | edge-matrix/types/rlp_unmarshal.go:39-64 | a list of telegrams of any mix comes back in order if and only if all kinds are known |
| `TypedRlp.MarshalStored` | edge-matrix/types/rlp_marshal_storage.go:15-38 | the loop writes the stored list |
| `TypedRlp.StoredListReturnsIff` | edge-matrix/types/rlp_unmarshal_storage.go:18-63 | the same for the stored list, every sender included |
| `TypedRlp.BlockReturnsIff` | edge-matrix/types/rlp_unmarshal.go:90-141 | a block comes back with header, uncles and telegrams as above, if and only if all kinds are known |
| `TypedRlp.BodyReturnsIff` | edge-matrix/types/rlp_unmarshal_storage.go:18-63 | a stored body comes back with every telegram and sender, under the same condition |
| `TypedRlp.BlockBytesReturnIff` | edge-matrix/types/rlp_marshal.go:25-62 | the block round trip through bytes |
| `TypedRlp.TelegramBytesReturn` | edge-matrix/types/rlp_marshal.go:175-185 | a telegram on its own comes back through bytes, its tag told apart from every list prefix |
| `TypedRlp.ShortIsRefused` | edge-matrix/types/rlp_unmarshal.go:373-385 | fewer than nine fields are refused |
| `TypedRlp.OldFormReturns` | edge-matrix/types/rlp_unmarshal.go:373-493 | nine fields without a response come back with an empty one |
| `TypedRlp.TagIsKnownIff` | edge-matrix/types/rlp_unmarshal.go:356-371 | a leading byte below the list prefixes is a tag, and is refused exactly if it is no known kind |
| `TypedRlp.TelegramOnWire` | edge-matrix/types/rlp_marshal.go:175-225 | a telegram with different contents in every field, byte for byte |
| `TypedRlp.HeaderOnWire` | edge-matrix/types/rlp_marshal.go:73-95 | a header with different contents in every field, byte for byte |

## Left out

- Networking, gossip, relays, JSON-RPC endpoints, the command line, secrets, metrics and logging: input and output only.
- Signature schemes, Keccak, BLS and the trie: hashes are parameters, assumed collision-free where a statement says so; a message or telegram carries the address that signature recovery yields.
- The EVM interpreter and precompiles: a parameter of `Executor`; conservation is proved for every interpreter that keeps the total and reports its gas.
- Timers and wall clocks: a timeout is a step that may happen at any time, and the time of day is an argument.
- Goroutines and locks: every handler is one atomic step, except that a poll's lookup and refresh are two.
- Uniqueness of PREPARE messages: a node that follows a future proposal sends PREPARE for the round it leaves, so safety is stated over COMMIT.
- IbftAgreement.AgreementAcrossRounds: assumes that no faulty validator sends PREPARE with a proposal hash of a round it proposes in, and that hashes of different rounds differ; without the first, receivers may reject a lock (`BuiltPCPassesIff`).
- IbftNetwork.AgreementInRound: executions use the guarded certificate jump, as its channel documents; `UnguardedJumpCommitsTwice` shows what the unguarded one allows. A node that panics takes no further step, which safety allows.
- A PREPREPARE message always carries a proposal in the model; the code dereferences a missing one.
- Liveness of consensus: that a valid block can be finalised is stated (`ValidBlockCanBeFinal`), that it must be is not, as timers and delivery are not modelled.
- Txn.Txn.Put: objects are kept in a map rather than an immutable radix tree; sharing between trees is modelled through the object references.
- Txn.GetCode: its cache is keyed by address and is not reverted, so it is not a function of the state.
- Transitions.Transition.Run: the interpreter is a function from the overlay it finds to the operations and nested calls it makes; gas and stack inside it are not modelled.
- Genesis allocation, tracers, the post-hook and state telegrams' special gas accounting beyond what `Executor` covers.
- The block gas pool: the code makes no deduction from it, so there is nothing to bound.
- State roots, receipt roots and logs blooms: contents are compared instead; the bloom's setter and tester use different bits.
- Pool.TelegramPool.AddTele: what the provider of an edge call answers is an argument, and the string returned to the caller is left out. A telegram's hash is an injective function of it.
- Pool.TelegramPool.Pop: is called with the head of the sender's promoted queue, as its only caller does.
- Pool.TelegramPool.ProcessEvent: the telegrams of all new blocks come as one list, and a chain nonce must exceed the nonces mined for it.
- Pool height never exceeding its maximum: the check and the later increase are separate steps, so it is not a property of the code.
- The pending counter is an unbounded integer, not a wrapping signed one.
- BlockSelection.WriteTelegrams: no promotion happens during selection, and the hook that may forbid telegrams in a block is left out.
- MerkleTree.VerifyProofUsing: what a platform yields for a power of two beyond 63 bits is a parameter.
- The depth function of the tree computes with floating point and is not modelled; `DepthOf` counts levels.
- Chain.Blockchain.WriteFullBlock: bodies, receipts and look-ups are stored under other keys and left out, and so are database errors; a header's hash field is always its digest.
- Batches of headers written without the parent check: `WriteKeepsIff` says what each write does.
- FilterTimeouts.FilterManager.AddFilter: filter ids are unique, as they are random UUIDs; updates and web socket delivery are left out.
- The block stream of filters and log queries.
- TypedRlp.TelegramReturns: numbers are not negative; a negative one would lose its sign.
- Receipts in RLP, and trailing bytes after a parsed value.
- Validator snapshots, staking hooks, proof-of-compute queues and the application layer.
- Replay.NoncesIncrease: assumes that the sender is not destroyed and that no nonce is 2^64 - 1; a destroyed account starts again at nonce 0, and the last nonce wraps to 0.
