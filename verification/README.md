# Green order agent: a verified model

This project models four stateful parts of the green order agent and proves what they promise together.

* **The Merkle Patricia trie** (`Mpf*.dfy`, `Trie*.dfy`): a 16-ary, prefix-compressed hash trie with three
  separate recursions: the root of a list of leaves, the proof generated for a path, and the root recomputed
  from a proof with or without the path. The project proves that the three agree for every hash function, and
  what a root and a proof commit to when the hash is injective on the strings hashed.
* **Account stores and the account index** (`AccountStore.dfy`, `AccountIndex*.dfy`, `Index*.dfy`): the store of
  an account's intents with its cached root, and the index that binds accounts to their on-chain outputs through
  binding, planning, confirmation, chain rollback and restart. Invariants are proved over every run.
* **The chain follower** (`LedgerCache.dfy`, `Chain*.dfy`): the cache of linked blocks, the rollback loop that
  turns a rollback into undo events, and replay after a restart.
* **The graduation journal** (`Graduation*.dfy`): an in-memory state with an undo journal, its text encoding,
  and its mirror in a key-value store.

`dafny verify dfyconfig.toml` checks everything. `Bytes.dfy` and `Ledger.dfy` hold what the parts share.

## How to read it

Operations that the source performs in place are methods of classes (`Trie`, `AccountStore`, `AccountIndex`,
`LedgerCache`, `GraduationStateDb`, `SnekPoolInputTracker`, `GraduationTracking`). Each is tied by its `ensures`
to a function on values, and the theorems are about those functions. Errors are values (`Result`, `Option`).

Hypotheses the theorems name:

* The hash is a parameter `h`. Completeness (`GeneratedProof`, `PresentProofs`, `MissingProofs`) holds for every
  `h` that keeps the stored keys' paths apart; two keys with one path stop the source program. Binding theorems
  ask that `h` is injective on one finite set, the strings hashed in the evaluations compared (`EntryStrings`,
  `ClaimStrings`, `MissingStrings`, `InsertStrings`, `DeleteStrings`), and never gives the empty root there.
* Values are 32 bytes in the binding theorems about entries, as in the account store, so that a value's digest
  is never the digest of a 64-byte node.
* `Insertable` (through `Follows`): wherever a stored path leaves the new key's path, the trie branches there or
  that stored path is alone. It is a condition on the entries and the key alone, and `InsertExactlyWhen` shows it
  is exactly when inserting with the generated proof works.
* `AllFresh`: the outputs a transaction produces are new to the index and differ from each other.
* `ChainOk` (for `RevertUndoesApply`): produced outputs are new and no current account is foreseen there by a
  prediction, an attached plan or a persisted store; no output is spent twice; a plan on a spent output, or a spent
  output kept for rollback, belongs to an account that is not current; an account waits at one output.
* `Awaited` (for `PlanIsConfirmed`): the plans on the spent outputs predict one store for one account; the first
  output with its root; no later output foreseen for the account.
* `Alone` (for what an output finds filed at its reference): no plan on the spent outputs, no spent account that could
  continue there, and no other output with that reference.
* `KeysApart`: the keys of each store in the file have paths of their own; where two share one the source stops.
* `Guarded` (for `PlansOwnStore`): a binding, and an account that a transaction may bind, never comes to an output
  on which another account's plan waits.
* `NodeStep`: blocks arrive in increasing slots, and a rollback names the tip, a block of the chain above the
  threshold from which rollbacks are handled, or a point above it before the first block.

Where a proof of the trie comes from elsewhere, the code accepts more than it should. The exact conditions are on its
last step: `LastLeaves` (the neighbour agrees with the path up to the nibble the step names, and differs there),
`LastKind` (a leaf carries a value's hash, a fork a node's digest; at an odd cursor a leaf's suffix can be read as a
run of nibbles) and, for deletion, `LastBranches` (a last branch has two other branches occupied).

Where the code and its documentation differ: `README.md` says that accounts are also tracked from mempool events;
the code ignores mempool events (`green-order-cardano-agent/src/account_events.rs:115-121`), and so does the model.
It also says that an account id is bound once; the code keeps that exactly for the accounts a restart finds
(`BindsAgainExactlyWhen`), because pending accounts are not saved, and `BindsTwice` is a run that binds one id twice.

## Model

| member | source | states |
|---|---|---|
| `Mpf.NibblesSpell` | green-order-cardano-agent/src/mpf.rs:550-560 | Every byte of a path is its two nibbles, the high one first. |
| `Mpf.CommonSplit` | green-order-cardano-agent/src/mpf.rs:402-411 | The loop finds the first position from the cursor on at which the leaves disagree, or reports that there is none. |
| `Mpf.ChildGroups` | green-order-cardano-agent/src/mpf.rs:390-396 | Each of the 16 groups holds exactly the leaves with that nibble, in order; a position past the path is refused. |
| `Mpf.FirstDivergence` | green-order-cardano-agent/src/mpf.rs:413-417 | The first position at which two paths differ, or a failure when they agree to the end. |
| `Mpf.SplitExists` | green-order-cardano-agent/src/mpf.rs:376-411 | Two or more leaves with distinct paths always split below nibble 64, so the root computation never meets its failure cases. |
| `MpfReference.RootForIsReference` | green-order-cardano-agent/src/mpf.rs:369-388 | The root computed over a list of leaves is the root of its contents as a map, so leaf order does not matter. |
| `MpfCompleteness.MerkleFromNeighbors` | green-order-cardano-agent/src/mpf.rs:460-509 | Recomputing a node from one child and the four packed neighbours equals hashing all 16 children with that child replaced. |
| `MpfCompleteness.SparseIsFull` | green-order-cardano-agent/src/mpf.rs:488-493 | The two-child shortcut equals the full 16-way node whose other children are empty. |
| `MpfCompleteness.StoredFollows` | green-order-cardano-agent/src/mpf.rs:290-316 | Every stored path follows the compressed prefixes, so completeness covers every stored key. |
| `MpfCompleteness.InsidePrefix` | green-order-cardano-agent/src/mpf.rs:306-311 | A path that leaves the trie above the split of its leaves fails the condition: it leaves inside a compressed prefix. |
| `MpfCompleteness.StepFold` | green-order-cardano-agent/src/mpf.rs:318-367 | The generated step, branch, fork or leaf, always exists and recomputes its node with the path's child replaced by any root. |
| `MpfCompleteness.ExcludingCollapse` | green-order-cardano-agent/src/mpf.rs:246-288 | A fork or leaf step that ends a proof collapses to the root of the only neighbour under the joined prefix. |
| `MpfCompleteness.GeneratedProof` | green-order-cardano-agent/src/mpf.rs:210-316 | For every hash and every path that follows the prefixes, the generated proof recomputes the root of the contents with the path set to any value, and the root of the contents without the path. |
| `MpfBinding.Merkle16Binds` | green-order-cardano-agent/src/mpf.rs:511-525 | Equal 16-way digests come from equal children. |
| `MpfBinding.PathBinds` | green-order-cardano-agent/src/mpf.rs:460-486 | A digest recomputed along one branch that equals a full node's digest fixes the child and all four neighbours. |
| `MpfBinding.RootCommits` | green-order-cardano-agent/src/mpf.rs:369-388 | Two contents with equal roots are equal: leaves, nodes and the empty trie cannot be confused. |
| `MpfBinding.StepSound` | green-order-cardano-agent/src/mpf.rs:419-449 | Any well-formed step that recomputes the root of some contents describes a real split of them, with the real child, and moves with that child. |
| `MpfBinding.IncludingSound` | green-order-cardano-agent/src/mpf.rs:210-244 | Any proof that recomputes the root of some contents shows an entry of them, and recomputes the updated root for any new value. |
| `MpfBinding.DivergentFails` | green-order-cardano-agent/src/mpf.rs:290-316 | The proof generated for a path that leaves inside a compressed prefix does not recompute the root. |
| `MpfInjective.ValuesRecomputeApart` | green-order-cardano-agent/src/mpf.rs:210-244 | For every path and every proof, two different value hashes recompute to different roots, and one succeeds when the other does. |
| `MpfInjective.OneValuePerRoot` | green-order-cardano-agent/src/mpf.rs:117-145 | Under any one root a proof shows one value of a key, and an update from any other value is refused. |
| `Tries.Root` | green-order-cardano-agent/src/mpf.rs:67-69 | The root of a trie is the reference root of its keys' paths with their value hashes. |
| `Tries.NoEntriesRoot` | green-order-cardano-agent/src/mpf.rs:8 | Whatever the hash, the root of an empty trie is 32 zero bytes. |
| `Tries.OneEntryRoot` | green-order-cardano-agent/src/mpf.rs:369-388 | The root of one entry is the hash of the byte 0xff, the key's hash and the value's hash. |
| `Tries.LeavesContents` | green-order-cardano-agent/src/mpf.rs:104-114 | The leaves built from the ordered map hold each key's path and value hash, once. |
| `Tries.Trie.Insert` | green-order-cardano-agent/src/mpf.rs:71-77 | A new key is added and the new root returned; an existing key is refused and nothing changes. |
| `Tries.Trie.Update` | green-order-cardano-agent/src/mpf.rs:79-83 | A stored key gets the new value and the new root is returned; a missing key is refused and nothing changes. |
| `Tries.Trie.Delete` | green-order-cardano-agent/src/mpf.rs:85-88 | A stored key is removed and the new root returned; a missing key is refused and nothing changes. |
| `Tries.PresentProofs` | green-order-cardano-agent/src/mpf.rs:133-153 | With the proof generated for a stored key, updating and deleting give the roots of the rebuilt tries. |
| `Tries.MissingProofs` | green-order-cardano-agent/src/mpf.rs:90-95 | With the proof generated for an insertable key, the key is shown missing and inserting gives the root of the rebuilt trie. |
| `TrieBinding.EqualRootsEqualEntries` | green-order-cardano-agent/src/mpf.rs:67-69 | Two key-value maps with equal roots are the same map. |
| `TrieBinding.AnyProofIsSound` | green-order-cardano-agent/src/mpf.rs:117-145 | Whatever the proof, a key and value it shows under a trie's root are an entry, and its update gives the rebuilt root. |
| `TrieBinding.OnlyTheCommittedValue` | green-order-cardano-agent/src/mpf.rs:117-145 | Under a trie's root no proof shows a value other than the committed one, or updates from it. |
| `TrieBinding.InsertExactlyWhen` | green-order-cardano-agent/src/mpf.rs:125-131 | Inserting a missing key with its generated proof succeeds if and only if the key leaves the trie at a branch or a single leaf, never inside a compressed prefix. |
| `MpfAbsence.LeavingInserts` | green-order-cardano-agent/src/mpf.rs:210-288 | Any proof of absence, generated or not, that recomputes the root: if its last step leaves the path at the nibble it names and carries the kind of digest it is for, the path is missing and including it gives the root with the path set. |
| `MpfAbsence.InsertingLeaves` | green-order-cardano-agent/src/mpf.rs:210-288 | The converse: an accepted proof that inserts as it should has such a last step, in both respects. |
| `MpfAbsence.AnyAbsenceExactlyWhen` | green-order-cardano-agent/src/mpf.rs:121-131 | Against a trie's root, any accepted proof of absence is right (the key is missing and inserting gives the rebuilt root) if and only if its last step leaves the key's path at the nibble it names and carries the kind of digest it is for. |
| `MpfAbsence.AcceptedTooLate` | green-order-cardano-agent/src/mpf.rs:246-275 | A concrete proof that is accepted although its last step names a nibble after the one where the paths part, and whose insertion is not the rebuilt root. |
| `MpfAbsence.AcceptedOtherKind` | green-order-cardano-agent/src/mpf.rs:257-268 | A concrete proof whose last step leaves the path but is a fork that carries a leaf: accepted for stored and missing keys alike, and wrong for each. |
| `MpfRemoval.LeavingRemoves` | green-order-cardano-agent/src/mpf.rs:210-288 | Any proof that shows a path and value and has a right last step gives, without the path, the root of the rest. |
| `MpfRemoval.RemovingLeaves` | green-order-cardano-agent/src/mpf.rs:210-288 | The converse: a proof that removes as it should has such a last step. |
| `MpfRemoval.DeleteExactlyWhen` | green-order-cardano-agent/src/mpf.rs:147-153 | Deleting through any accepted proof gives the rebuilt root if and only if the last step leaves the key's path where it says, carries the kind of digest it is for, and is a branch only where two other stored paths part. |
| `MpfRemoval.ShownOffPath` | green-order-cardano-agent/src/mpf.rs:275 | A concrete accepted proof, with a neighbour that is off the path above the nibble it names, through which deletion gives a wrong root. |
| `MpfRemoval.ShownByBranch` | green-order-cardano-agent/src/mpf.rs:250-256 | A concrete accepted proof, a branch over two keys, through which deletion gives a wrong root. |
| `TrieBinding.SomeKeyIsNotInsertable` | green-order-cardano-agent/src/mpf.rs:290-316 | A concrete trie of two keys and a third key, with a path of its own, for which not even a proof can be generated. |
| `AccountStores.AccountStore.InsertRemaining` | green-order-cardano-agent/src/account_store.rs:115-144 | Adds a pending leaf and returns both roots and the proof, or leaves the store as it was. |
| `AccountStores.AccountStore.UpdateRemaining` | green-order-cardano-agent/src/account_store.rs:146-175 | Replaces the intent of a pending leaf, or leaves the store as it was. |
| `AccountStores.AccountStore.MarkCompleted` | green-order-cardano-agent/src/account_store.rs:177-205 | Completes a pending leaf without touching the root, or leaves the store as it was. |
| `AccountStores.ProvePath` | green-order-cardano-agent/src/account_store.rs:219-236 | The proof handed out is the one checked against the cached root, with every refusal of the source. |
| `AccountStores.LoadSnapshot` | green-order-cardano-agent/src/account_store.rs:70-96 | A snapshot loads exactly when the root rebuilt from its leaves is the stored one, and then gives those leaves. |
| `AccountStores.InsertKeepsRoot` | green-order-cardano-agent/src/account_store.rs:115-144 | Inserting succeeds exactly for a new insertable key, and the cached root is then the root rebuilt from all leaves. |
| `AccountStores.UpdateKeepsRoot` | green-order-cardano-agent/src/account_store.rs:146-175 | Updating succeeds exactly for a pending leaf with the given digest, and the cached root is then the rebuilt root. |
| `AccountStores.CompleteKeepsRoot` | green-order-cardano-agent/src/account_store.rs:177-205 | Completing succeeds under the same condition, keeps the root, and the root still is the rebuilt one. |
| `AccountStores.PendingLeafHasProof` | green-order-cardano-agent/src/account_store.rs:219-236 | In a consistent store a proof is given exactly for pending leaves, and it passes `has` against the root. |
| `AccountStores.MissingRefused` | green-order-cardano-agent/src/account_store.rs:115-236 | In any store, inserting under a stored key is refused as existing; a proof of a missing key as a missing intent, its update and completion as unsupported. |
| `AccountStores.CompletionRefusedFor` | green-order-cardano-agent/src/account_store.rs:177-205 | In any store, consistent or not, a completion is refused for the first reason that applies (completed, other digest, root not the rebuilt one) and made exactly when none does. |
| `AccountStores.ProofRefusedFor` | green-order-cardano-agent/src/account_store.rs:219-236 | The same for the path proof of a stored leaf. |
| `AccountStores.UpdateRefusedFor` | green-order-cardano-agent/src/account_store.rs:146-175 | The same refusals for an update, where a root that is not the rebuilt one shows as a failing proof. |
| `AccountStores.SnapshotRoundTrip` | green-order-cardano-agent/src/account_store.rs:70-113 | Loading a store's snapshot under its root gives the same store. |
| `AccountStores.LoadsExactlyWhen` | green-order-cardano-agent/src/account_store.rs:70-113 | A store's saved leaves load with a root if and only if it is the root rebuilt from them; otherwise both roots are reported. |
| `AccountStores.LoadedHasOwnRoot` | green-order-cardano-agent/src/account_store.rs:70-96 | What loads from any snapshot has the root of its own leaves: one leaf per key, the last one given. |
| `AccountStores.SomeIntentIsRefused` | green-order-cardano-agent/src/account_store.rs:115-144 | Every store with those two keys refuses an intent under the third, whatever the intents are. |
| `AccountStores.RunKeeps` | green-order-cardano-agent/src/account_store.rs:115-205 | Over every run of the three operations the cached root is the rebuilt root, keys are never lost, and a completed leaf is frozen. |
| `AccountIndexObject.AccountIndex.WithPersistencePath` | green-order-cardano-agent/src/account_index.rs:55-86 | A new index holds what the file loads, or nothing when any part of it does not load; the file is left as it is. |
| `AccountIndexObject.AccountIndex.PersistAccountStores` | green-order-cardano-agent/src/account_index.rs:601-627 | The file then holds what saving the state writes; every method below leaves it so. |
| `AccountIndexObject.LoadPersistedStores` | green-order-cardano-agent/src/account_index.rs:718-743 | Stores and plans are read one by one, in any order; one that does not load refuses the whole file. |
| `AccountIndexObject.Restart` | green-order-cardano-agent/src/account_index.rs:55-86 | A new process over the file the old one left holds exactly the loaded state, with the file in step again. |
| `AccountIndexObject.AccountIndex.BindIndexed` | green-order-cardano-agent/src/account_index.rs:585-595 | Both maps move to the new output, the account is no longer pending nor the output unbound, and the file is written. |
| `AccountIndexObject.AccountIndex.BindExternalAccountIdOnce` | green-order-cardano-agent/src/account_index.rs:426-463 | Binds an observed empty-root output to an unknown account and saves it, or refuses with the source's reason and changes neither index nor file. |
| `AccountIndexObject.AccountIndex.PlanSigInsert` | green-order-cardano-agent/src/account_index.rs:174-190 | The plan is made on a copy of the base store and saved with its reservation; a refused plan changes nothing. |
| `AccountIndexObject.AccountIndex.PlanPathUpdate` | green-order-cardano-agent/src/account_index.rs:192-208 | The same for updating a leaf. |
| `AccountIndexObject.AccountIndex.PlanPathCompletion` | green-order-cardano-agent/src/account_index.rs:210-225 | The same for completing a leaf. |
| `AccountIndexObject.AccountIndex.ReservePredictedStoreSnapshot` | green-order-cardano-agent/src/account_index.rs:271-288 | The plan gets the next id, its account becomes pending and is kept for rollback, and the file is written. |
| `AccountIndexObject.AccountIndex.RemovePendingSnapshotsFor` | green-order-cardano-agent/src/account_index.rs:253-269 | Every plan of the account on the output goes, with its predicted outputs, and no other. |
| `AccountIndexObject.AccountIndex.AttachPredictedOutputRef` | green-order-cardano-agent/src/account_index.rs:290-302 | A live plan is filed under its predicted output; an unknown plan is refused. |
| `AccountIndexObject.AccountIndex.ObserveConsumed` | green-order-cardano-agent/src/account_index.rs:318-329 | A bound output's account becomes pending and is kept for rollback under that output; the file follows. |
| `AccountIndexObject.AccountIndex.ObserveRollbackConsumed` | green-order-cardano-agent/src/account_index.rs:331-340 | The account spent there is bound again and every plan on that output is dropped, in the file too. |
| `AccountIndexObject.AccountIndex.ObserveRemovedOutput` | green-order-cardano-agent/src/account_index.rs:342-350 | The account bound there becomes pending and is not kept for rollback; the file follows. |
| `AccountIndexObject.AccountIndex.BindConfirmedStoreForConsumedRefs` | green-order-cardano-agent/src/account_index.rs:501-544 | All plans that match the spent outputs and the new root must predict one store of one account; then whichever comes first, that store is bound. |
| `AccountIndexObject.AccountIndex.BindEmptySuccessorForConsumedAccount` | green-order-cardano-agent/src/account_index.rs:560-583 | The only account spent by the transaction continues at an empty-root output while it is pending. |
| `AccountIndexObject.AccountIndex.BindConfirmedPredictedStore` | green-order-cardano-agent/src/account_index.rs:465-499 | A plan attached to the output is bound when the output's root is the predicted one. |
| `AccountIndexObject.AccountIndex.ObserveCreatedOrUpdated` | green-order-cardano-agent/src/account_index.rs:380-414 | An output is bound by prediction, by plan or from the persisted stores, in that order, or stays unbound. |
| `AccountIndexObject.AccountIndex.ObserveTransaction` | green-order-cardano-agent/src/account_index.rs:352-378 | Consuming the inputs one by one in any order is consuming them as a set; outputs follow in order, and the file ends in step. |
| `IndexInvariant.ConsumeStep` | green-order-cardano-agent/src/account_index.rs:362-364 | Consuming one more output of a set: the order of consumption does not matter. |
| `AccountIndexObject.AccountIndex.PendingContinuations` | green-order-cardano-agent/src/account_index.rs:139-172 | One order for every pending leaf of every current account, none twice, each carried by the account's output, giving the whole leaving amount of the leaving asset for the arriving one with the leaf's fee, nonce and operator, and with a proof that passes `has` against the root in the output's datum. |
| `AccountIndexObject.ApplyAccountEvents` | green-order-cardano-agent/src/account_events.rs:67-77 | Applying a list of events observes one transaction of all consumed and produced parts. |
| `AccountIndexObject.RevertAccountEvents` | green-order-cardano-agent/src/account_events.rs:79-86 | Reverting handles the events one by one in their order. |
| `IndexInvariant.BindKeeps` | green-order-cardano-agent/src/account_index.rs:585-595 | Binding a fresh output with the datum's root keeps the invariant. |
| `IndexInvariant.ConsumedKeeps` | green-order-cardano-agent/src/account_index.rs:318-329 | Consuming an output keeps the invariant. |
| `IndexInvariant.RemovedKeeps` | green-order-cardano-agent/src/account_index.rs:342-350 | Removing an output keeps the invariant. |
| `IndexInvariant.RollbackKeeps` | green-order-cardano-agent/src/account_index.rs:331-340 | Restoring a spent output keeps the invariant, the datum root of the restored account included. |
| `IndexInvariant.ConfirmedKeeps` | green-order-cardano-agent/src/account_index.rs:501-544 | Confirmation by consumed plans keeps the invariant. |
| `IndexInvariant.EmptySuccessorKeeps` | green-order-cardano-agent/src/account_index.rs:560-583 | The empty successor keeps the invariant. |
| `IndexInvariant.PredictedKeeps` | green-order-cardano-agent/src/account_index.rs:465-499 | Confirmation by the predicted output keeps the invariant. |
| `IndexInvariant.CreatedKeeps` | green-order-cardano-agent/src/account_index.rs:380-414 | Observing an output keeps the invariant on every path. |
| `IndexInvariant.TransactionKeeps` | green-order-cardano-agent/src/account_index.rs:352-378 | Observing a whole transaction with fresh outputs keeps the two maps inverse, current and pending apart, rollback entries under their own outputs and apart from bound ones, and every datum root. |
| `IndexStores.TransactionAdvances` | green-order-cardano-agent/src/account_index.rs:352-378 | A transaction keeps every store consistent with its cached root and forgets no account. |
| `IndexStores.BindOnceAdvances` | green-order-cardano-agent/src/account_index.rs:426-463 | A successful binding makes an unknown account known and keeps every store consistent. |
| `IndexPlanning.PlanIsReentrant` | green-order-cardano-agent/src/account_index.rs:174-288 | Every successful plan, first or repeated, starts from the store the on-chain datum commits to, is the only plan for its account and output, has an id not in use, and leaves the next plan the same base. |
| `IndexClaims.CurrentBase` | green-order-cardano-agent/src/account_index.rs:227-251 | A current account can plan on its own output, from its own store, and on no other output. |
| `IndexClaims.PendingBase` | green-order-cardano-agent/src/account_index.rs:227-251 | A pending account can plan on an output exactly while it has a plan there and the output is kept for rollback. |
| `IndexClaims.PlanExactlyWhen` | green-order-cardano-agent/src/account_index.rs:174-225 | A plan is made if and only if there is a store to start from and the operation fits it: a new insertable key, or a pending leaf with the given digest. |
| `IndexOwnPlans.PlansOwnStore` | green-order-cardano-agent/src/account_index.rs:227-251 | Over every run, restarts included, in which nobody else comes to an output a plan waits on, every plan, first or repeated, starts from the store of its own account. |
| `IndexOwnPlans.StepOwn` | green-order-cardano-agent/src/account_index.rs:271-350 | Each production step and restart keeps that every plan's output belongs to the plan's account, given that guard. |
| `IndexOwnPlans.BindOwn` | green-order-cardano-agent/src/account_index.rs:426-463 | A successful binding keeps it if and only if no other account has a plan on that output. |
| `IndexOwnPlans.ProcessIsGuarded` | green-order-cardano-agent/src/account_index.rs:227-251 | In a process that has not been restarted every step meets the guard. |
| `IndexWitnesses.PlansOnAnothersStore` | green-order-cardano-agent/src/account_index.rs:227-251 | A concrete run with a restart, without the guard, after which an account plans on the store another account had. |
| `IndexPlanning.PlanIsConfirmed` | green-order-cardano-agent/src/account_index.rs:352-378 | Whatever the account's own state, a transaction that spends planned outputs whose plans all predict one store for one account binds that account, with that store, to its first output with the planned root, and leaves no plan on what was spent. |
| `IndexClaims.DissentBindsNobody` | green-order-cardano-agent/src/account_index.rs:501-544 | Plans that disagree about the account or the store of a spent output bind nobody; the plans stay and the output is unbound. |
| `IndexClaims.AttachedIsConfirmed` | green-order-cardano-agent/src/account_index.rs:290-302 | A plan attached to an output is confirmed by that output when it has the planned root, even if the planned output is not among the spent ones. |
| `IndexClaims.PredictedHere` | green-order-cardano-agent/src/account_index.rs:380-391 | A predicted output without a plan for its root binds the predicted account if its root is empty, and nobody otherwise. |
| `IndexObserved.SuccessorContinues` | green-order-cardano-agent/src/account_index.rs:560-583 | A spent account without a plan continues, with the empty store, at the transaction's first output with the empty root, and is no longer pending. |
| `IndexObserved.WaitingIsRestored` | green-order-cardano-agent/src/account_index.rs:399-411 | An account whose store waits becomes current with it at the output it waits at, if the output has its root, and the store no longer waits. |
| `IndexObserved.OtherRootWaits` | green-order-cardano-agent/src/account_index.rs:399-413 | An output with another root leaves the store waiting and is itself unbound. |
| `IndexObserved.RestartedIsRestored` | green-order-cardano-agent/src/account_index.rs:399-411 | An account current before a restart is current again, at the same output with the same store, once the output is observed. |
| `IndexObserved.RestartedOtherRoot` | green-order-cardano-agent/src/account_index.rs:399-413 | An output with another root at that reference binds nobody and the store keeps waiting. |
| `IndexClaims.UnclaimedIsBindable` | green-order-cardano-agent/src/account_index.rs:380-463 | An output that no plan, prediction or waiting store claims can then be bound by an unknown account if and only if its root is empty. |
| `IndexClaims.BindOnceExactlyWhen` | green-order-cardano-agent/src/account_index.rs:426-463 | A binding succeeds exactly for an unknown account at an observed, unbound output with the empty root where no store waits; the account is then current there with the empty store. |
| `IndexClaims.BoundOnce` | green-order-cardano-agent/src/account_index.rs:426-463 | After a binding the account is refused as bound everywhere, and the output as bound for any other account. |
| `IndexClaims.SpentNotBindable` | green-order-cardano-agent/src/account_index.rs:318-329 | No account can be bound to an output a transaction has spent, unless the transaction also produced it. |
| `IndexClaims.RemovedNotBindable` | green-order-cardano-agent/src/account_index.rs:342-350 | Nothing is left at an output a rollback has removed, and binding to it is refused as not observed. |
| `IndexClaims.RolledBackPlans` | green-order-cardano-agent/src/account_index.rs:331-340 | After a spending is rolled back no plan on that output is left to confirm, and the other plans stay with what they are attached to. |
| `IndexSaved.PlanOutlivesRestart` | green-order-cardano-agent/src/account_index.rs:67-73 | A plan awaited before a restart is confirmed after it by the same transaction, with the same store. |
| `IndexSaved.RestartRestores` | green-order-cardano-agent/src/account_index.rs:55-86 | The file saved from a valid state loads, and to exactly one index: the current accounts' stores, the waiting stores, the plans and the id counter, and nothing else. |
| `IndexSaved.SavedAgain` | green-order-cardano-agent/src/account_index.rs:601-627 | Saving what was loaded would write the same file. |
| `IndexRuns.ReachableIsValid` | green-order-cardano-agent/src/account_index.rs:271-350 | Every state of every run of production steps and restarts keeps the whole invariant. |
| `IndexRuns.CurrentMatchesDatum` | green-order-cardano-agent/src/account_index.rs:380-414 | In every reachable state a current account's store root is the root in its output's datum and the root rebuilt from its leaves. |
| `IndexRuns.SurvivesRestart` | green-order-cardano-agent/src/account_index.rs:601-627 | An account is known after a restart if and only if it was waiting, or current at an output under which no other store waits. |
| `IndexRuns.BindsAtMostOnce` | README.md:82-89 | Over every run a binding succeeds at most once per account id, as long as every restart finds the account. |
| `IndexRuns.BindsAgainExactlyWhen` | green-order-cardano-agent/src/account_index.rs:426-463 | After a restart an id can be bound to a newly observed empty-root output if and only if the restart did not find the account. |
| `IndexWitnesses.BindsTwice` | green-order-cardano-agent/src/account_index.rs:426-463 | A concrete run in which one id is bound twice: bound, spent without a successor, restarted, bound again. |
| `IndexRollback.EventsOfTx` | green-order-cardano-agent/src/account_events.rs:35-65 | The scanned events give back the transaction's inputs and account outputs in their order. |
| `IndexRollback.RevertUndoesApply` | green-order-cardano-agent/src/account_events.rs:67-86 | Applying any list of transactions and reverting them last first leaves exactly the accounts that were current, unmoved, and those that waited on a spent output, back at that output with their store. |
| `IndexRollback.PlainTransactionFits` | green-order-cardano-agent/src/account_events.rs:67-86 | The hypotheses of the undo theorem hold for every transaction whose inputs are bound or unknown and unplanned, and whose outputs are new and unforeseen. |
| `LedgerCaches.BigEndianOrder` | cardano-chain-sync/src/cache.rs:117-126 | Byte order of fixed-width big-endian numbers with what follows them is numeric order, then the order of what follows. |
| `LedgerCaches.KeyOrder` | cardano-chain-sync/src/cache.rs:117-126 | Byte order of block keys is the order of points by slot, then hash. |
| `LedgerCaches.KeyInjective` | cardano-chain-sync/src/cache.rs:117-126 | Two points share a key only when they are equal. |
| `LedgerCaches.LedgerCache.Replay` | cardano-chain-sync/src/cache.rs:94-114 | Every stored block from the point's key on, in key order; values that are not blocks are passed over. |
| `ChainSync.BlockGivesValid` | cardano-chain-sync/src/event_source.rs:176-260 | A block gives exactly the transactions not marked invalid, in block order and each with its own auxiliary data, if and only if none past the 16-bit index range shares its cut index with one marked invalid; so every block of at most 65536 transactions does. A block of another era gives none. |
| `ChainSync.LargeBlockLosesOne` | cardano-chain-sync/src/event_source.rs:203-212 | In a concrete block of 65537 transactions the last one is valid, and fewer transactions are given than are valid. |
| `ChainSync.CacheBlock` | cardano-chain-sync/src/event_source.rs:158-168 | The block becomes the tip and is linked to the tip before it, or to the origin. |
| `ChainSync.CachePoint` | cardano-chain-sync/src/event_source.rs:170-174 | Only the tip moves. |
| `ChainSync.Rollback` | cardano-chain-sync/src/event_source.rs:297-326 | The loop ends on every cache and takes blocks off the tip until the point is reached or no block is cached there. |
| `ChainSync.ProcessUpstreamByTxs` | cardano-chain-sync/src/event_source.rs:94-156 | A block is cached or only noted by the threshold and not again when replayed; a rollback at or below the threshold changes nothing and emits nothing. |
| `ChainSync.LedgerTransactions` | cardano-chain-sync/src/event_source.rs:28-69 | Replayed blocks are processed first, then everything the node sends. |
| `ChainRuns.ForwardLinks` | cardano-chain-sync/src/event_source.rs:158-174 | A new block keeps the cache exactly the linked chain above the threshold. |
| `ChainRuns.RollbackReaches` | cardano-chain-sync/src/event_source.rs:297-326 | A rollback to a block of the chain above the threshold ends with the tip there, takes off exactly the later blocks, last first, and leaves no other block behind. |
| `ChainRuns.RefusedRollback` | cardano-chain-sync/src/event_source.rs:151-154 | For every cache and point, a rollback at or below the threshold changes nothing and emits no event. |
| `ChainRuns.RollbackExactlyWhen` | cardano-chain-sync/src/event_source.rs:131-156 | After a rollback to a block of the chain the cache is the chain up to that block if and only if the block is above the threshold or is the tip; the events undo exactly the later blocks if it is above the threshold, and nothing otherwise. |
| `ChainRuns.RollbackEmpties` | cardano-chain-sync/src/event_source.rs:297-326 | A rollback to a point that is not on a chain all above the threshold takes off every block, last first. |
| `ChainRuns.StartExactlyWhen` | cardano-chain-sync/src/event_source.rs:131-156 | A rollback to a point before the first block empties the cache and undoes every transaction if the point is above the threshold, and does neither otherwise. |
| `ChainRuns.RunKeeps` | cardano-chain-sync/src/event_source.rs:94-156 | Over every run of the node the cache is the node's chain above the threshold, and the events undo only what was applied last, leaving exactly the valid transactions of the chain in order. |
| `ChainRuns.FreshRun` | cardano-chain-sync/src/event_source.rs:28-69 | From an empty cache the events alone give the valid transactions of the node's chain. |
| `ChainReplay.ReplayIsChain` | cardano-chain-sync/src/cache.rs:94-114 | Replay from any point gives exactly the cached blocks of the chain at or after it, in chain order with their links. |
| `ChainReplay.ReplayFromBlock` | cardano-chain-sync/src/cache.rs:94-114 | Replay from a cached block of the chain starts with that block and ends with the tip. |
| `ChainReplay.RestartRebuilds` | cardano-chain-sync/src/event_source.rs:28-69 | A follower restarted with replay, then any run of the node: its events complete the transactions of the blocks not replayed to those of the node's chain. |
| `GraduationText.HexRoundTrip` | bloom-offchain-cardano/src/graduation.rs:283-290 | Reading hex text gives the bytes back. |
| `GraduationText.DecimalRoundTrip` | bloom-offchain-cardano/src/graduation.rs:292-300 | Reading decimal text gives the number back. |
| `GraduationText.RefRoundTrip` | bloom-offchain-cardano/src/graduation.rs:292-300 | Parsing the text of an output reference gives it back, and the text holds no separator of a journal line. |
| `GraduationText.TokenRoundTrip` | bloom-offchain-cardano/src/graduation.rs:273-290 | Parsing the text of a token gives it back, empty names included. |
| `GraduationText.EncodeJournalEntry` | bloom-offchain-cardano/src/graduation.rs:302-324 | The text is one line per consumed, produced and graduated record, in that order. |
| `GraduationText.ParseJournalEntry` | bloom-offchain-cardano/src/graduation.rs:326-374 | The line loop reads exactly the entries the line grammar admits, and refuses every other text. |
| `GraduationText.EntryRoundTrip` | bloom-offchain-cardano/src/graduation.rs:302-374 | Parsing an encoded entry gives the same entry, for all lists of records, empty ones included. |
| `Graduation.GraduationTracking.JournalGraduatedSplashPools` | bloom-offchain-cardano/src/event_sink/handler.rs:118-134 | Memory and mirror both take up the observation. |
| `Graduation.GraduationTracking.RollbackGraduation` | bloom-offchain-cardano/src/event_sink/handler.rs:88-95 | Memory and mirror both undo the journalled transaction; an unknown one changes neither. |
| `Graduation.GraduationStateDb.PersistObservation` | bloom-offchain-cardano/src/graduation.rs:210-230 | The batch writes the mirror of an observation in one commit. |
| `Graduation.GraduationStateDb.PersistRollback` | bloom-offchain-cardano/src/graduation.rs:232-251 | The batch writes the mirror of a rollback in one commit. |
| `GraduationMirror.PoolKeys` | bloom-offchain-cardano/src/graduation.rs:254-256 | Pool keys are injective and never a key of another kind. |
| `GraduationMirror.InputKeys` | bloom-offchain-cardano/src/graduation.rs:258-260 | Input keys are injective and never a key of another kind. |
| `GraduationMirror.JournalKeys` | bloom-offchain-cardano/src/graduation.rs:262-264 | Journal keys are injective and never a key of another kind. |
| `GraduationMirror.RunMirrored` | bloom-offchain-cardano/src/graduation.rs:121-251 | Over every run of observations and rollbacks the key-value store holds exactly the in-memory state. |
| `GraduationMirror.FreshRunMirrored` | bloom-offchain-cardano/src/graduation.rs:121-251 | The same from the empty state and the empty store. |
| `GraduationUndo.LoadState` | bloom-offchain-cardano/src/graduation.rs:188-208 | Loading is refused exactly when some entry is unreadable, and gives the in-memory state whenever the store mirrors it, in any key order and whatever keys of other kinds stand beside. |
| `GraduationUndo.UndoExactlyWhen` | bloom-offchain-cardano/src/graduation.rs:121-149 | Rolling an observation back restores the state if and only if the transaction and its pools were new, its produced references were new or also consumed, and its consumed records were the tracked ones. |
| `GraduationUndo.UndoRestores` | bloom-offchain-cardano/src/graduation.rs:121-149 | Undoing any list of such observations in reverse order restores the starting state. |
| `GraduationUndo.ConsumedSnekRefs` | bloom-offchain-cardano/src/event_sink/handler.rs:97-106 | The tracked ones among a transaction's inputs, with their pools, in input order. |
| `GraduationUndo.TrackedExactly` | bloom-offchain-cardano/src/event_sink/handler.rs:97-106 | The pairs are exactly the inputs that are tracked, each with its pool, in input order and as often as the input occurs. |
| `GraduationUndo.HandlerTracks` | bloom-offchain-cardano/src/event_sink/handler.rs:97-134 | After an observation exactly the produced outputs and the former inputs that were not spent are tracked, so a spent input is not unless it was also produced; pools and journal have grown by what was observed. |
| `GraduationUndo.HandlerUndoable` | bloom-offchain-cardano/src/event_sink/handler.rs:97-134 | What the handler records is undoable when the transaction, the produced references and the pools are new. |

## Left out

- Blake2b, the CBOR and Plutus-data encodings of intents and proofs, and block decoding: foreign library behaviour. A stored block is the block itself.
- `mark_pending_update`, `bind_external_account_id` and a bare `reserve_predicted_store_snapshot`: outside the production steps, so not part of the runs.
- Reads of the index that change nothing and only look up maps (`current`, `current_or_pending_base`, `account_status`): they would add easy members.
- A failed write of the file, which the source only logs, and an index without a persistence path.
- IndexRuns.BindsAtMostOnce: the documentation promises one binding per id without the condition on restarts; the code does not keep that, as `BindsTwice` shows.
- IndexRollback.RevertUndoesApply: does not restore unbound outputs, consumed plans, or a persisted store used up by a lazy restore, because the source does not.
- IndexOwnPlans.PlansOwnStore: after a restart the code does not keep it without the guard, as `PlansOnAnothersStore` shows; the guard is exact for bindings (`BindOwn`) and sufficient for transactions.
- The snapshot counter is unbounded; the 64-bit limit is not modelled.
- ChainRuns.RunKeeps: leaves out rollbacks to an earlier point at or below the threshold; the source ignores them, so the cache stays behind the node's chain, exactly as `RollbackExactlyWhen` and `StartExactlyWhen` say.
- Streams, locks, channels and the rollback beacon of the chain follower: events are given as finished lists.
- `ledger_blocks` and `atomic_flow.rs`: the first emits the same blocks without unpacking them, the second keeps its own replay.
- GraduationText.TokenRoundTrip: an asset name is its bytes; the padded array behind it is taken to be zero past the name.
- UTF-8 decoding of stored keys and values, and the wording of parse errors: text is ASCII and a refusal is one value.
- Fees, pool classification and everything else of `graduation.rs` past line 440; HTTP and TCP sources, node clients, submission, configuration and deployment.
