# Model of the Tornado relayer

A Dafny model of the privacy pool, of the relayer that sponsors withdrawals from it, and of the
paymaster contract that pays for them. `dafny verify dfyconfig.toml` checks the whole project.

| file | what it models |
|---|---|
| `MerkleTree.dfy`, `MerklePath.dfy` | the incremental Merkle tree, its ring of recent roots, and what a path to a root shows |
| `Pool.dfy` | deposits and withdrawals of an ETH or ERC-20 pool, and its books |
| `SponsorshipStore.dfy` | the notes under sponsorship, in memory and in the file |
| `Signing.dfy`, `SigningProgress.dfy`, `Budget.dfy`, `StaleReading.dfy` | signing requests interleaved at every await, with a clock, failing writes, crashes, restarts and charges |
| `Sponsorship.dfy`, `Settlement.dfy` | the paymaster's transient allowances and what `postOp` does with the money |
| `Validator.dfy`, `Composition.dfy` | the off-chain check of the account calls, alone and together with the paymaster |
| `Fees.dfy`, `PaymasterData.dfy` | the off-chain fee floor against the on-chain bill; the encoder against the parser |
| `LeafSync.dfy` | the client's leaf cache |
| `RelayerRegistry.dfy`, `InstanceRegistry.dfy`, `Namehash.dfy` | the sandbox DAO registries and the ENS node of a name |

Code that changes state in place is a class whose methods are proved against pure functions or
explicit new states; protocols are state machines with all their runs. A call that reverts returns
false (or nothing) and leaves the state as it was. `ghost` state is history only.

## Hypotheses

- Hash functions are parameters. `MerkleTree.ZeroTableCorrect` says that the hard-coded zero table is
  what its comments claim; `FieldClosed` that the hasher works modulo the field.
- A proof is represented by what it shows, `MerklePath.Genuine`: a note whose nullifier the
  commitment fixes, and a path of the right length that does not hash to a tree value by a different
  pair. That every deposited note can be withdrawn needs as much of the honest trees,
  `OrdinaryTrees`: no two of their pairs collide, and the padding value is neither deposited nor a hash of leaves.
- Global injectivity is assumed in one place only: `Namehash.CollisionFree`, for the direction of
  `NamehashIsEip137` that tells two nodes apart.
- The clock is shared with the chain and never runs backwards; one process owns a store file; a write
  of the file happens wholly or not at all, and the path is replaced by a rename.
- The chain includes an operation at most once, while its signature is valid, and charges at most
  `maxGasCostWei`. Validations of a bundle come before its executions.
- Relays do not nest inside one another in `Settlement` (they may in `Sponsorship`). They may be made for any
  sender, also during another sender's operation, and in any token.
- What the EntryPoint charges for an operation, its `postOp` included, is at most the gas cost plus the overhead that
  `postOp` bills (`Settlement.ChargeOf`).
- A settlement run starts with the paymaster holding at least the ETH it has recorded as received (`Backed`), as it does
  when nothing is recorded.
- The node behind `syncLeaves` returns true logs of the range it was asked for, none twice; whether it
  returns all of them is a parameter.
- TORN refuses transfers from the null address.

## Where the code and its promises differ

- The constructor of the tree stores the root of an empty tree one level short
  (`MerkleTreeWithHistory.sol:47`). The stored root is the root of the tree exactly when something
  has been inserted: `MerkleTree.StoredRootIsTreeRoot`.
- `assertDepositCovers` reads the deposit, and sums the promises after the answer has come back. What the
  chain charges in between is harmless while the charged entry is still in the sum; if that entry expires and is
  pruned first, the same deposit is promised twice. In every reachable state a check is safe exactly when its
  reading is at most the deposit plus the charges still summed up, or too low to pass:
  `StaleReading.SafeReadings`. (Its witnesses start from any initial state, also from one in which signatures of an earlier
  process already exceed the deposit.) `StaleReading.StaleReadingIsNotCovered` starts from a deposit that exactly covers the
  live signatures and the reserve: for every reading above that bound and every accepted cost up to the excess,
  a run issues a signature of that cost and ends with live signatures that the deposit does not cover. It asks for
  a deposit of at least the reserve, which charges alone never touch from such a start, and a lifetime of at least a second.
  With safe readings the promise holds over every run, `Budget.DepositCoversLiveSignatures`; readings are safe when no
  charged entry is pruned during the await, when the deposit does not fall, or when reading and sum are one step.
- The paymaster records received tokens by sender, not by token. An operation whose sender was relayed
  to in one token while its terms name another is refunded from what the paymaster held of the second
  (`Settlement.OtherTokenIsSpent`), which can come up when one sender has several operations in a bundle. An
  operation leaves the holding of a token alone exactly when it pays in another one or pays no more than was relayed
  for its sender in that very token: `Settlement.TokensHeldAreKept`, over runs `Settlement.RunKeepsTokens`. Read off the
  ledger before `postOp`, whatever the terms and costs: exactly when no more is recorded for the sender than came in for it
  in that token, or no more is held (`Settlement.GuardOnTheLedger`). One token per sender is enough: `Settlement.OneTokenPaysFromItsOwn`.
- The comment on `minimumFee` calls it the exact worst case. In tokens that is so exactly when the conversion leaves
  no remainder; otherwise the floor is one unit higher, because one side rounds up and the other
  down: `Fees.FloorIsTight`, `Fees.FloorAboveKeep`.
- `namehash` equals the label-by-label definition of EIP-137 exactly for names without a trailing dot;
  a trailing dot is swallowed: `Namehash.NamehashIsEip137`.
- A tornado-cli seed that stops inside a block gives a cache that later syncs take for complete up to that
  block; `LeafSync.SeedInsideABlock` is one that is then returned with a deposit missing. The cache is
  true exactly when the first deposit it lacks is in a later block: `LeafSync.SeedIsTrueWhenBlocksAreWhole`. Syncing it
  gives a full scan exactly then, or when it is rewound below its last block: `LeafSync.SeedSyncsWhenBlocksAreWhole`.
- The registry treats the null address as a registered relayer until somebody takes it as a worker; it can be staked to
  and nullified. The accounting includes it.

## Model

| member | source | states |
|---|---|---|
| `MerkleTree.MerkleTreeWithHistory.constructor` | contracts-tornado/src/MerkleTreeWithHistory.sol:37-48 | an empty tree whose storage already stands for the empty leaf list and the one-entry root list |
| `MerkleTree.MerkleTreeWithHistory.HashUp` | contracts-tornado/src/MerkleTreeWithHistory.sol:68-94 | the insert loop computes the ancestor of the new leaf in the full padded tree and leaves the completed left siblings in the cache; with a field-closed hasher it fails only for a leaf outside the field |
| `MerkleTree.MerkleTreeWithHistory.Insert` | contracts-tornado/src/MerkleTreeWithHistory.sol:68-94 | appends the leaf and stores the root of the full binary tree over all leaves; fails, changing nothing, exactly when the tree is full or the leaf is outside the field |
| `MerkleTree.MerkleTreeWithHistory.IsKnownRoot` | contracts-tornado/src/MerkleTreeWithHistory.sol:99-115 | true exactly for nonzero roots among the newest thirty of the whole history, after at most thirty probes |
| `MerkleTree.MerkleTreeWithHistory.GetLastRoot` | contracts-tornado/src/MerkleTreeWithHistory.sol:120-122 | the root of the tree over all inserted leaves, once there is one |
| `MerkleTree.StoredRootIsTreeRoot` | contracts-tornado/src/MerkleTreeWithHistory.sol:37-48 | the stored root is that of the tree it stands for if and only if something was inserted |
| `MerkleTree.AppendFrame` | contracts-tornado/src/MerkleTreeWithHistory.sol:68-94 | a new leaf changes no node of the plain tree but its own ancestors |
| `MerkleTree.EmptyNode` | contracts-tornado/src/MerkleTreeWithHistory.sol:125-159 | every node to the right of the last leaf's path is the table's empty-subtree root |
| `MerkleTree.LevelHash` | contracts-tornado/src/MerkleTreeWithHistory.sol:68-94 | the pair hashed at a level, cached or zero sibling included, is the pair of children in the enlarged tree |
| `MerkleTree.CacheAfterInsert` | contracts-tornado/src/MerkleTreeWithHistory.sol:68-94 | the cache again holds the completed left sibling at every level where the next index has its bit set |
| `MerkleTree.RingAfterInsert` | contracts-tornado/src/MerkleTreeWithHistory.sol:89-93 | overwriting the oldest slot keeps the ring equal to the newest thirty roots |
| `MerkleTree.KnownForThirtyRoots` | contracts-tornado/src/MerkleTreeWithHistory.sol:99-115 | a stored root stays known while at most 29 more are stored, and after 30 exactly if it was stored again among them |
| `MerkleTree.HistoryAt` | contracts-tornado/src/MerkleTreeWithHistory.sol:89-93 | entry n of the root list is the root after the n-th insert |
| `MerkleTree.SlotWraps` | contracts-tornado/src/MerkleTreeWithHistory.sol:99-115 | walking back through the ring wraps at zero and returns to its start after exactly thirty steps |
| `MerklePath.Binding` | contracts-tornado/src/MerkleTreeWithHistory.sol:53-66 | two hash routes that meet and do not collide started from the same leaf |
| `MerklePath.AcceptedNoteWasDeposited` | contracts-tornado/src/Tornado.sol:76-99 | a genuine path to any stored root, the constructor's included, belongs to a note deposited before that root |
| `MerklePath.HonestPathFolds` | contracts-tornado/src/MerkleTreeWithHistory.sol:68-94 | the sibling path of a leaf folds to its ancestor at every height |
| `MerklePath.DepositedNoteHasPath` | contracts-tornado/src/Tornado.sol:76-99 | every deposited note has a path to every root stored since |
| `MerklePath.HonestPathIsGenuine` | contracts-tornado/src/Tornado.sol:76-99 | that path is one that a proof can be made for |
| `Pool.TornadoPool.DepositedNoteIsWithdrawable` | contracts-tornado/src/Tornado.sol:76-99 | for every deposited note and every recent root since, the root check passes and the proof's demands are met |
| `Pool.TornadoPool.constructor` | contracts-tornado/src/Tornado.sol:40-49 | a solvent pool without deposits |
| `Pool.TornadoPool.Deposit` | contracts-tornado/src/Tornado.sol:55-63 | accepted exactly when the commitment is new, a field element, fits and is paid for; adds one leaf and one denomination, and keeps the books |
| `Pool.TornadoPool.ProcessWithdraw` | contracts-tornado/src/ERC20Tornado.sol:38-58 | both pools' payout: every account is paid exactly its share as recipient and as relayer, and for tokens the ETH refund with its fallback; nothing when a check or payment fails |
| `Pool.TornadoPool.Withdraw` | contracts-tornado/src/Tornado.sol:76-99 | accepted exactly under the contract's checks; the holding always covers it, the nullifier was unspent, every account gets exactly its share, and the accounting identity is kept |
| `Pool.SpentAtMostDeposited` | contracts-tornado/src/Tornado.sol:76-99 | distinct nullifiers of deposited notes are never more than the deposits |
| `Pool.DepositKeepsSolvent` | contracts-tornado/src/ETHTornado.sol:25-27 | a paid deposit keeps: holding = denomination * (deposits - spent), payouts = denomination * spent and to every account its shares, no nullifier twice |
| `Pool.WithdrawKeepsSolvent` | contracts-tornado/src/ETHTornado.sol:29-45 | paying out a deposited, unspent note is covered and keeps the same identity |
| `SponsorshipStore.LoadOfSigned` | relayer/src/store.ts:81-103 | what is written loads again, and gives back exactly the live signed notes |
| `SponsorshipStore.CommittedGasCost` | relayer/src/service.ts:305-319 | the summed cost, known exactly when every entry has one; otherwise how many lack one and until when |
| `SponsorshipStore.FileSponsorshipStore.Open` | relayer/src/store.ts:41-73 | start-up succeeds exactly when every signed entry that matters is well-formed and the file is writable; it then holds the live signed entries and the file holds the same |
| `SponsorshipStore.FileSponsorshipStore.Reserve` | relayer/src/service.ts:264-270 | refused exactly when the note is held; otherwise a pending entry under a fresh token |
| `SponsorshipStore.FileSponsorshipStore.Commit` | relayer/src/service.ts:271-281 | signs exactly when the reservation is still held and the write succeeds, in file and memory together; otherwise changes neither |
| `SponsorshipStore.FileSponsorshipStore.ReleaseReservation` | relayer/src/service.ts:282-285 | removes only a pending entry held under the same token |
| `SponsorshipStore.FileSponsorshipStore.PruneExpired` | relayer/src/service.ts:286-288 | keeps exactly the unexpired entries, unchanged |
| `SponsorshipStore.FileSponsorshipStore.Outstanding` | relayer/src/service.ts:289-291 | the unexpired entries, each counted once in the cost |
| `Signing.BeginIsSafe` | relayer/src/service.ts:735-750 | pruning and reserving keeps the invariant of the signing protocol |
| `Signing.CommitIsSafe` | relayer/src/service.ts:799-806 | recording and issuing keeps it, whether the reservation was lost, the write failed or both succeeded |
| `Signing.RestartIsSafe` | relayer/src/store.ts:41-73 | a restart from the file keeps it, also when the file is refused or cannot be written |
| `Signing.SettleIsSafe` | relayer/src/service.ts:735-806 | a charge by the chain keeps it |
| `Signing.WorldIsSafe` | relayer/src/store.ts:75-103 | time passing, a top-up, a crash, and a crash between writing the file and returning the signature keep it |
| `Signing.StepIsSafe` | relayer/src/service.ts:700-837 | every step of every request and of the world keeps it |
| `Signing.AtMostOneLiveSignature` | relayer/src/service.ts:735-806 | in every interleaving at most one issued signature per nullifier is unexpired, and each such one is in the file and, while the process is up, in memory as signed |
| `SigningProgress.EveryInterleaving` | relayer/src/service.ts:700-837 | the steps are not scheduled: clock, crash, restart, prune and every request can move whenever they are able to |
| `SigningProgress.BeginReserves` | relayer/src/service.ts:735-750 | a request drops what has expired, is turned away exactly when its note is held by something live, and otherwise holds it with its own data for its lifetime |
| `SigningProgress.RefusalFrees` | relayer/src/service.ts:771-774 | a refused request leaves nothing held under its token and touches nothing else |
| `SigningProgress.RefusedNoteCanBeReserved` | relayer/src/service.ts:771-774 | after a refusal the same note can be reserved at once |
| `SigningProgress.CommitOutcome` | relayer/src/service.ts:799-806 | issued exactly when the reservation is held and the file written, with file, memory and signature in agreement; otherwise nothing issued or written and the note free |
| `SigningProgress.StatusPrunes` | relayer/src/service.ts:491-493 | drops exactly what has expired |
| `SigningProgress.CrashedNoteStaysTaken` | relayer/src/store.ts:41-103 | a signature recorded but lost in a crash keeps its note taken after the restart |
| `SigningProgress.IssuedWithinLimit` | relayer/src/service.ts:954-961 | in every interleaving every signature issued has a cost, within the per-operation limit if there is one |
| `SigningProgress.SignedAfterEveryCheck` | relayer/src/service.ts:752-798 | in every interleaving a request about to be signed has passed every await since it began, each once and in order |
| `SigningProgress.RestartComesUp` | relayer/src/store.ts:41-73 | the process comes up exactly when no signed entry is damaged, save expired ones, and the file can be written |
| `SigningProgress.NothingSignedOverDamage` | relayer/src/store.ts:52-58 | while a live signature is behind a damaged entry the process stays down and nothing is issued |
| `SigningProgress.OneLiveSignatureDespiteDamage` | relayer/src/store.ts:41-73 | at most one live signature per nullifier in every interleaving that starts from a damaged file, too |
| `SigningProgress.CoveredRequestIsSigned` | relayer/src/service.ts:700-837 | a request within the limit, for a free note, that the deposit covers together with everything live has a run that issues its signature |
| `Budget.NothingIssuedOverUnknownCosts` | relayer/src/service.ts:294-319 | in every interleaving nothing is issued while a live entry has no recorded cost |
| `Budget.SettleOwesLess` | relayer/src/service.ts:954-987 | a charge lowers what is still owed by at least itself |
| `Budget.CheckCovers` | relayer/src/service.ts:954-987 | a passing check leaves the deposit covering every counted entry and the reserve, if its reading is at most the deposit plus the charges still summed up |
| `Budget.StepKeepsCovered` | relayer/src/service.ts:735-806 | every step keeps that, under the same condition on its reading |
| `Budget.ExposureIsCovered` | relayer/src/service.ts:954-987 | what the uncharged live signatures can cost is within what is counted |
| `Budget.DepositCoversLiveSignatures` | relayer/src/service.ts:954-987 | over every run whose readings meet that condition, from the first signature on, the deposit covers the reserve and every live, uncharged signature |
| `Budget.SettleKeepsReading` | relayer/src/service.ts:954-987 | a charge during the await takes no more from the deposit than it adds to what is summed up though charged |
| `Budget.ChargesAreFreshUnlessDropped` | relayer/src/service.ts:735-743 | over every run in which no charged entry is pruned while a reading is open, every reading meets the condition, whatever is charged |
| `Budget.NeverChargedIsFresh` | relayer/src/service.ts:954-987 | with a deposit that never falls every reading meets the condition |
| `Budget.AtomicReadingsAreFresh` | relayer/src/service.ts:954-987 | a reading taken together with the sum meets it whatever is charged |
| `StaleReading.StaleReadingIsNotCovered` | relayer/src/service.ts:954-987 | from a deposit that covers everything live and the reserve: for every reading above the bound and every accepted cost up to the excess, a run that issues a signature of that cost and ends uncovered |
| `StaleReading.SafeReadings` | relayer/src/service.ts:954-987 | a check leaves everything covered in every reachable state if and only if its reading is at most the deposit plus the charges still summed up, or too low to pass |
| `Sponsorship.BundleIsAccounted` | contracts/src/TornadoRelayerPaymasterCore.sol:367-384 | after every bundle, with nested frames and rollback, each allowance is surviving grants minus surviving relays, and relays never ran ahead of grants |
| `Sponsorship.MatchingGrant` | contracts/src/TornadoRelayerPaymasterCore.sol:282-291 | every surviving relay has an earlier grant for its own sender and withdrawal |
| `Sponsorship.RelaysHaveDistinctGrants` | contracts/src/TornadoRelayerPaymasterCore.sol:282-291 | no two relays share a grant |
| `Sponsorship.SimulateLeavesNothing` | contracts/src/TornadoRelayerPaymasterCore.sol:252-266 | the dry run leaves no grant, no relay and no other effect |
| `Sponsorship.RelayFrame` | contracts/src/TornadoRelayerPaymasterCore.sol:282-313 | a relay goes through exactly with an allowance of its slot, a callee that goes through and no revert; otherwise nothing of it is left |
| `Sponsorship.CallFrame` | contracts/src/TornadoRelayerPaymasterCore.sol:367-384 | any other frame leaves all of its effects or none |
| `Sponsorship.RunInOrder` | contracts/src/TornadoRelayerPaymasterCore.sol:452-477 | actions run in order, each from where the one before ended |
| `Sponsorship.RunDraws` | contracts/src/TornadoRelayerPaymasterCore.sol:374-384 | code without a validation inside only draws allowances down, one per surviving relay |
| `Sponsorship.SponsorshipSlots.GrantSponsorship` | contracts/src/TornadoRelayerPaymasterCore.sol:367-372 | raises one allowance by one, and no other, as the bundle model says |
| `Sponsorship.SponsorshipSlots.ConsumeSponsorship` | contracts/src/TornadoRelayerPaymasterCore.sol:374-384 | lowers one allowance by one, or fails without touching anything exactly when it is zero |
| `Settlement.Paymaster.RelayWithdraw` | contracts/src/TornadoRelayerPaymasterCore.sol:282-313 | records the balance differences of one relay for its sender and nobody else |
| `Settlement.ReceivedForSender` | contracts/src/TornadoRelayerPaymasterCore.sol:308-331 | every slot grows by exactly the ETH of the relays for its own sender |
| `Settlement.TokensReceivedForSender` | contracts/src/TornadoRelayerPaymasterCore.sol:308-331 | the same for tokens |
| `Settlement.KeepOfIsExact` | contracts/src/TornadoRelayerPaymasterCore.sol:501-508 | what is kept, bracketed: gas and overhead with the margin in basis points, the rate per 1e18 wei, the service fee |
| `Settlement.TokenRefundIsExact` | contracts/src/TornadoRelayerPaymasterCore.sol:545-567 | a token refund that arrives is the fee beyond what is kept, or everything received if that is less |
| `Settlement.Paymaster.TakeReceived` | contracts/src/TornadoRelayerPaymasterCore.sol:334-340 | returns and clears both slots of the sender and nobody else's |
| `Settlement.PostOp` | contracts/src/TornadoRelayerPaymasterCore.sol:486-510 | in every mode the sender's slots end empty, and unless the operation succeeded no balance moves |
| `Settlement.Paymaster.SettleInEth` | contracts/src/TornadoRelayerPaymasterCore.sol:513-543 | the whole new ledger, with either outgoing call failing or not, also for lack of funds |
| `Settlement.Paymaster.SettleInToken` | contracts/src/TornadoRelayerPaymasterCore.sol:545-567 | the whole new ledger, with the refund failing or not, also for lack of tokens |
| `Settlement.Paymaster.PostOpHook` | contracts/src/TornadoRelayerPaymasterCore.sol:486-510 | the step-by-step hook computes the ledger that the theorems speak about |
| `Settlement.OperationConserves` | contracts/src/TornadoRelayerPaymasterCore.sol:513-567 | what was received for a sender, from the relays for it alone, is refunded, deposited or stays; the refund is bounded by that and by the fee beyond what is kept; ETH held before is never spent; the sender's slots end empty and nobody else's change |
| `Settlement.RunConserves` | contracts/src/TornadoRelayerPaymasterCore.sol:293-311 | over every run, all ETH relayed is refunded, deposited, stays or is still pending, and ETH and deposit held grow by exactly their parts |
| `Settlement.OperationMovesTokens` | contracts/src/TornadoRelayerPaymasterCore.sol:545-567 | a sender's pending tokens become the paymaster's own, less what is paid out |
| `Settlement.TokensHeldAreKept` | contracts/src/TornadoRelayerPaymasterCore.sol:545-567 | an operation does not spend what was held of a token if and only if it pays in another one or pays no more than was relayed for its sender in that token |
| `Settlement.OtherTokenIsSpent` | contracts/src/TornadoRelayerPaymasterCore.sol:308-331 | a relay paid in one token under terms that name another: fifty of a hundred held before leave |
| `Settlement.RunKeepsTokens` | contracts/src/TornadoRelayerPaymasterCore.sol:545-567 | over every run, no operation spends what was held if and only if each meets that condition |
| `Settlement.HoldingsSurvive` | contracts/src/TornadoRelayerPaymasterCore.sol:545-567 | then the initial holding is there at the end, beside everything pending |
| `Settlement.OneTokenPaysFromItsOwn` | contracts/src/TornadoRelayerPaymasterCore.sol:308-311 | the condition holds when all token relays for a sender pay in the token its terms name |
| `Settlement.GuardOnTheLedger` | contracts/src/TornadoRelayerPaymasterCore.sol:486-510 | that condition holds for all terms, costs, prices and call outcomes if and only if no more is recorded for the sender than came in for it in the token, or no more is held |
| `Settlement.RetainsExactlyKeep` | contracts/src/TornadoRelayerPaymasterCore.sol:501-508 | with a fee at or above the floor, paid in full and refunded, the paymaster retains exactly what it keeps |
| `Settlement.DepositNeverFalls` | contracts/src/TornadoRelayerPaymasterCore.sol:513-543 | a quoted, fully paid ETH operation adds to the deposit exactly its charge with the margin, and the service fee |
| `Settlement.RunPaysForItself` | contracts/src/TornadoRelayerPaymasterCore.sol:513-543 | over every run of such operations the deposit earns exactly all charges, margins and service fees |
| `Fees.ServiceFeeFor` | relayer/src/fee.ts:33-35 | the share of the denomination rounded down |
| `Fees.KeepIsExact` | contracts/src/TornadoRelayerPaymasterCore.sol:501-508 | the amounts kept in ETH and in tokens, bracketed from gas, overhead, margin and rate |
| `Fees.FloorIsExact` | relayer/src/fee.ts:46-58 | the floor in ETH and in tokens, bracketed from the five gas limits, price, margin and rate |
| `Fees.FloorCoversPhases` | relayer/src/fee.ts:39-58 | the floor covers the bill when each phase stays within its own gas limit |
| `Fees.TailCallsAreAdded` | relayer/src/fee.ts:29-31 | tail calls raise the call gas limit by their gas and nothing else |
| `Fees.FloorCoversKeep` | relayer/src/fee.ts:46-58 | a fee at the floor is never below what `postOp` keeps, in ETH and in tokens, for every use within the limits |
| `Fees.FloorIsTight` | relayer/src/fee.ts:39-58 | an operation that uses its limits up keeps the whole floor in ETH; in tokens the whole floor if and only if the conversion leaves no remainder, and one unit less otherwise |
| `Fees.FloorAboveKeep` | relayer/src/fee.ts:39-58 | gas, price and rate at which the floor is one token unit and nothing is kept |
| `Fees.TailCallsAreCovered` | relayer/src/fee.ts:29-31 | raising the call gas limit by the tail calls' gas keeps the floor above the bill |
| `Fees.BilledWithinPrefund` | relayer/src/userop.ts:139-147 | gas used plus the postOp overhead, at the paid price, stays within the total limits at `maxFeePerGas` |
| `Fees.KeepCoversCosts` | contracts/src/TornadoRelayerPaymasterCore.sol:501-508 | what is kept covers gas, margin and service fee, to within one token unit |
| `Fees.PostOpStaysBelowTheQuote` | contracts/src/TornadoRelayerPaymasterCore.sol:501-508 | every intermediate product of the hook is bounded by its off-chain counterpart |
| `PaymasterData.ParseOfEncode` | relayer/src/userop.ts:154-171 | encoding succeeds exactly for in-range terms with a 65-byte signature, and behind any 52-byte prefix gives 317 bytes that parse back |
| `PaymasterData.EncodedLayout` | relayer/src/userop.ts:149-171 | which of the 265 bytes hold which field |
| `PaymasterData.ParsedLayout` | contracts/src/TornadoRelayerPaymasterCore.sol:77-89 | which of the 317 bytes are read for which field |
| `PaymasterData.BigEndian` | relayer/src/userop.ts:149-171 | a number's bytes, most significant first |
| `PaymasterData.EncodeOfParse` | contracts/src/TornadoRelayerPaymasterCore.sol:429-447 | parsing succeeds exactly for 317 bytes, and every such string is its prefix and the encoding of its parse |
| `Validator.DecodeTornadoWithdraws` | relayer/src/validate.ts:53-101 | the loop collects the withdraws among the calls |
| `Validator.WithdrawsAreExact` | relayer/src/validate.ts:53-101 | each withdraw once, none else, in call order |
| `Validator.DirectFields` | relayer/src/validate.ts:77-98 | a withdraw called on a pool directly: the pool is the target, every other field comes from its data |
| `Validator.AcceptedExactlyWhenSponsoring` | relayer/src/validate.ts:128-156 | accepted if and only if exactly one call targets the paymaster, it is a valueless `relayWithdraw` with the required relayer, recipient and an allowed pool, and no other call is a pool withdraw |
| `Validator.FindSponsoringWithdraw` | relayer/src/validate.ts:128-156 | the procedure returns that call, and fails only when no call is the sponsoring one |
| `Composition.BatchRelays` | contracts/src/TornadoRelayerPaymasterCore.sol:282-291 | a successful all-or-nothing batch with a relay in it relayed that slot |
| `Composition.AcceptedOperationRelaysOnce` | relayer/src/validate.ts:128-156 | for every accepted call list, signed and granted once, a successful execution relays exactly once for the sender, with the signed hash, whatever the tail calls do |
| `Composition.AcceptedOperationRuns` | contracts/src/TornadoRelayerPaymasterCore.sol:374-384 | every accepted call list runs with its one grant when nothing it calls reverts |
| `Composition.OwnRelayRuns` | contracts/src/TornadoRelayerPaymasterCore.sol:235-246 | the recipient's relay takes one allowance of exactly its withdrawal and then runs what the pool calls |
| `Composition.OnlyTheRecipientRelays` | contracts/src/TornadoRelayerPaymasterCore.sol:235-246 | a relay by anybody else reverts, and the batch with it |
| `Composition.OneValidationIsOnlyGrant` | contracts/src/TornadoRelayerPaymasterCore.sol:452-477 | after all validations of a bundle, a sender validated once holds its signed grant and no other |
| `Composition.BundleRelaysOnce` | contracts/src/TornadoRelayerPaymasterCore.sol:282-291 | over a whole bundle from empty storage, other operations executed before and after, exactly one relay for the sender survives, the accepted one |
| `LeafSync.Rewind` | client/src/merkle.ts:73-82 | the in-place cut of a cache that is ahead |
| `LeafSync.RewoundIsTrue` | client/src/merkle.ts:73-82 | rewinding a true cache gives the true cache of `head`, and fails exactly without per-leaf blocks |
| `LeafSync.MakeRanges` | client/src/merkle.ts:84-87 | the loop builds the specified ranges |
| `LeafSync.RangesPartition` | client/src/merkle.ts:84-87 | every block to be scanned is in exactly one range, for every chunk size |
| `LeafSync.RangesAreChunks` | client/src/merkle.ts:84-87 | the ranges run from the first to the last block, each but the last exactly a chunk long, the last at most |
| `LeafSync.SomeScheduleFinishes` | client/src/merkle.ts:88-99 | with any worker there is a schedule that delivers every range |
| `LeafSync.FetchCollects` | client/src/merkle.ts:88-99 | in every schedule of workers: true deposits of delivered ranges, none twice, all of them if the node is exact |
| `LeafSync.SortIsSorted` | client/src/merkle.ts:101 | sorting orders the events and keeps them |
| `LeafSync.SortIsPermutation` | client/src/merkle.ts:101 | sorting neither drops nor repeats an event |
| `LeafSync.AppendIsExact` | client/src/merkle.ts:102-110 | appending succeeds exactly when every event has the next index, and adds the events as they are |
| `LeafSync.AppendEvents` | client/src/merkle.ts:102-110 | appends consecutive events and fails at the first gap |
| `LeafSync.AppendIsComplete` | client/src/merkle.ts:102-110 | all events between two positions append without a gap |
| `LeafSync.SyncIsFullScan` | client/src/merkle.ts:58-117 | with an exact node, syncing any true cache, behind or ahead, equals a full scan, for every chunk size and schedule |
| `LeafSync.TrueCacheCanSync` | client/src/merkle.ts:58-117 | every true cache that can be rewound has a schedule that completes the scan |
| `LeafSync.SyncIsPrefixOrFails` | client/src/merkle.ts:58-117 | with a node that leaves logs out, the result is a prefix of the deposits or a failure, never a hole |
| `LeafSync.LeafCacheFromTornadoCli` | client/src/merkle.ts:43-55 | the seed file sorted, gap-checked and dated by its largest block |
| `LeafSync.SeedIsTrueWhenBlocksAreWhole` | client/src/merkle.ts:43-55 | accepted if and only if the entries are the first deposits; a true cache if and only if the first deposit it lacks is in a later block |
| `LeafSync.SeedSyncsWhenBlocksAreWhole` | client/src/merkle.ts:43-117 | with an exact node, syncing an accepted seed equals a full scan if and only if it is rewound below its last block or does not stop inside that block |
| `LeafSync.InsideABlockIsMissed` | client/src/merkle.ts:58-117 | a prefix that stops inside its last block never syncs to a full scan at or after that block |
| `LeafSync.SeedInsideABlock` | client/src/merkle.ts:43-117 | an accepted seed whose sync with an exact node misses a deposit |
| `RelayerRegistry.SandboxRelayerRegistry.constructor` | contracts/src/dao-sandbox/SandboxRelayerRegistry.sol:61-73 | an empty registry, with nothing staked |
| `RelayerRegistry.SandboxRelayerRegistry.Register` | contracts/src/dao-sandbox/SandboxRelayerRegistry.sol:94-118 | succeeds exactly for the unregistered ENS owner with enough stake and a list of free, distinct workers; masters stay masters and stake is accounted for |
| `RelayerRegistry.SandboxRelayerRegistry.RegisterWorker` | contracts/src/dao-sandbox/SandboxRelayerRegistry.sol:121-129 | links one free address to the sender's master |
| `RelayerRegistry.SandboxRelayerRegistry.UnregisterWorker` | contracts/src/dao-sandbox/SandboxRelayerRegistry.sol:132-137 | unlinks a worker at its own or its master's request; never a master |
| `RelayerRegistry.SandboxRelayerRegistry.StakeToRelayer` | contracts/src/dao-sandbox/SandboxRelayerRegistry.sol:157-162 | adds stake to an address that resolves to itself |
| `RelayerRegistry.SandboxRelayerRegistry.Burn` | contracts/src/dao-sandbox/SandboxRelayerRegistry.sol:165-177 | takes the fee from the sender's master, fails if it is not covered, and charges unregistered senders nothing |
| `RelayerRegistry.SandboxRelayerRegistry.NullifyBalance` | contracts/src/dao-sandbox/SandboxRelayerRegistry.sol:189-194 | empties one balance and accounts for it |
| `RelayerRegistry.LinkingResolves` | contracts/src/dao-sandbox/SandboxRelayerRegistry.sol:126-130 | linking free addresses to a master leaves every registered address resolving to a master, and all masters masters |
| `InstanceRegistry.SandboxInstanceRegistry.UpdateInstance` | contracts/src/dao-sandbox/SandboxInstanceRegistry.sol:53-59 | lists a pool when it becomes enabled, and only then |
| `InstanceRegistry.SandboxInstanceRegistry.RemoveInstance` | contracts/src/dao-sandbox/SandboxInstanceRegistry.sol:62-75 | takes exactly one entry off the list and its settings off the mapping |
| `InstanceRegistry.SandboxInstanceRegistry.SetProtocolFee` | contracts/src/dao-sandbox/SandboxInstanceRegistry.sol:77-79 | changes one fee and enables nothing |
| `InstanceRegistry.RemovalKeepsIndex` | contracts/src/dao-sandbox/SandboxInstanceRegistry.sol:62-75 | after swap-with-last removal the list still names every enabled pool once and nothing else |
| `InstanceRegistry.SwapRemoveTakesOne` | contracts/src/dao-sandbox/SandboxInstanceRegistry.sol:71-73 | one occurrence goes, and no entry but the last moves |
| `Namehash.LabelLength` | contracts/src/dao-sandbox/ENSNamehash.sol:17-23 | the loop stops at the end of the label that starts at the index |
| `Namehash.NamehashFrom` | contracts/src/dao-sandbox/ENSNamehash.sol:7-15 | the recursion over the index terminates and gives the node of the rest of the name |
| `Namehash.JoinOfSplit` | contracts/src/dao-sandbox/ENSNamehash.sol:17-23 | cutting a name at its dots loses nothing |
| `Namehash.TrailingDotIsSwallowed` | contracts/src/dao-sandbox/ENSNamehash.sol:7-15 | a name with a dot appended has the node of the labels before that dot |
| `Namehash.NamehashIsEip137` | contracts/src/dao-sandbox/ENSNamehash.sol:7-15 | the node is that of the name's labels if and only if the name has no trailing dot |

## Left out

- JSON-RPC, HTTP, bundler and node calls, environment parsing, start-up and logging: each awaited check of a request passes or fails.
- The Groth16 verifier, MiMC, Pedersen, keccak and ECDSA, and the operation hash that is signed.
- The EntryPoint itself, beyond its step order, the validity window and the bound on a charge; `adminCall`, sweeps, staking and deposit withdrawals of the owner.
- The Merkle proof library behind `merklePath` is not part of this model; `MerklePath` states what a path is.
- ABI decoding: the validator and the chain are given the same decoders, and `withdrawalHash` is one function on both sides.
- Return data, events, log text and error codes, beyond accept or refuse.
- Leaf caches without per-leaf blocks that already hold leaves, other than that they cannot be rewound.
- Nested relays in `Settlement` (received amounts are balance differences), and tokens with transfer hooks, whose refund could relay again after the slots were taken; fee-on-transfer tokens and ETH forced into an account.
- 256-bit wrap-around: amounts are unbounded. The transient counters use unchecked additions of one and of real balances; checked sums revert instead of wrapping (see `Fees.PostOpStaysBelowTheQuote`).
- The store that lives in memory only: it is the file store without its file.
- The `senderImplementation` check of `validatePaymasterUserOp`, and a validation whose signature fails: it grants as well, but its bundle never runs.
- Re-entrancy of the pool: its guard makes deposits and withdrawals atomic, as they are here.
- Router allowances that the instance registry sets at other contracts.
- `SwapAndSupplyZap`, the wallet patches, deployment scripts and generated bindings.
