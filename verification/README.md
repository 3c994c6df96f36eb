# UTXO state, wallet and support code: a verified model

A Dafny model of the parts of the repository that keep money and order: the UTXO state contract in its full and its
zkVM form, the server's executor and the transactions the server builds, the wallet's note selection and
consolidation, the batch and pool primitives, Merkle path folding, and two codecs. `dafny verify dfyconfig.toml`
checks all of it.

- **Two copies of one state machine.** `UtxoState` and `Executor` hold two sparse Merkle trees and a window of 1000
  root fingerprints. `ZkVm` holds, per transaction, only the leaves it touches and a multi-proof, packed in a batch
  that is a reversed stack. `Refinement` proves that the batch commits, step by step, to what the full state commits
  to, and what a rejected call does to the rest of a batch. `Soundness` says exactly when a witness from anywhere else
  makes the contract accept only what the full state accepts: it must be about the transaction's own keys and open them
  with a multi-proof. The contract enforces neither, and both families of witnesses it accepts otherwise are shown.
  `Executor` proves that nothing is spent twice over any run, failed and half-applied calls included.
- **The trees are concrete.** `SparseMerkle` defines a root on the leaf map alone; `SMT.UpdateLeaf` climbs from the
  leaf to the root over stored branches and is proved to keep that root. `MultiProof` proves a tree pruned to some keys
  against the same definition. `SmtCodec` and `StateCodec` prove storing and rebuilding, whatever order the hash map
  yields. Hashes are arbitrary functions; nowhere is one assumed to be injective. Where the code relies on collision
  resistance, the result names the colliding inputs.
- **The wallet.** `NoteSelection` defines the best total of m notes and proves that merging the two largest is
  optimal. `Selection`, `Wallet`, `Consolidation`, `Rounds` and `TransferService` prove the selection, the
  bookkeeping with pending records, and the merging loops: termination, conservation, the exact number of rounds, and
  what becomes of all three when a spendable note is stored without psi.
- **Concurrency.** `BatchQueue` and `Pool` are the state behind the locks; `BatchProtocol` and `PoolProtocol` run any
  number of callers and workers over it in any interleaving of the critical sections.
- **Folding and codecs.** `MerklePath`, `PgNumeric`, `NoteUrl`; `Blobs`, `TxBuilder` and `Acceptance` for the transactions
  the server builds and when both copies of the state accept them.

State that the original changes in place is a class here, each method proved against a function of the old state; the
theorems are about those functions. A time, a random psi, a network outcome or the enumeration order of a hash map is a
parameter. A panic of the original is an error value.

Where the code and its documentation disagree the model follows the code:

- `empty_tree_root` merges with the null hash at every level, not the empty subtree with itself
  (pkg/hash/src/path.rs:118-133; `MerklePath.EmptyRootsDiffer`).
- `MerklePath::apply_leaf` returns one entry more than a path holds (pkg/zk-primitives/src/merkle_path.rs:51-55;
  `MerklePath.AppliedLeafIsNoPath`).
- `min_interval_ms` is documented as the minimum time between executions; a batch chained to a running one is not
  held back by it (pkg/primitives/src/batch.rs:145-146 and 308-334; `BatchProtocol.ThrottledStepIff`).
- Consolidation is reported as needed for an empty wallet and an amount of zero or less, contrary to the comment that
  two notes are there (front/src/services/TransferService.ts:614; `Selection.NeededMeansMergeable`).
- Spent notes are said to be removed from the store; a note stored without psi is offered under 64 zeros and removed
  under none, so it stays (front/src/services/TransferService.ts:338-343 and 705; `Wallet.TransferWithoutPsi`,
  `Rounds.EndlessRun`).
- A call that fails may have recorded part of its nullifiers and notes (server/src/hyli_utxo_state_client.rs:95-104;
  `Executor.FailedCallUnchangedIff`, `Executor.HalfApplied`).

## Model

| member | source | states |
|---|---|---|
| `Refinement.BatchRefinesExecutor` | contracts/hyli-utxo-state/src/state.rs:408-469 | Refinement over whole runs: for every list of transactions the executor applies and whose blob checks pass, merging their metadata into one batch and running it gives at every position exactly the executor's commitment before and after that transaction; no commitment fails to compute |
| `Refinement.StepRefines` | server/src/hyli_utxo_state_client.rs:151-251 | One transaction: the witness state commits to the full state before it, executes it, and then commits to the full state after it |
| `Refinement.CollectOrder` | server/src/hyli_utxo_state_client.rs:178-191 | The merged metadata of a run lists, in run order, one witness state per transaction, each read from the state just before that transaction |
| `Refinement.HostFollowsExecutor` | contracts/hyli-utxo-state/src/state.rs:453-469 | A batch whose run order starts with the witnesses of an accepted run produces the executor's commitments step by step, whatever follows them in the batch |
| `Refinement.WitnessGivesRoot` | contracts/hyli-utxo-state/src/state.rs:201-236 | A witness as read from a tree computes that tree's root, for every set of distinct keys, the empty one included |
| `Refinement.UpdatedWitnessGivesRoot` | contracts/hyli-utxo-state/src/state.rs:386-402 | With its leaves overwritten by new commitments a witness computes the root of the tree with exactly those leaves added |
| `Refinement.WitnessAgrees` | contracts/hyli-utxo-state/src/zk/mod.rs:104-114 | Accept/reject agreement in every well-formed state: the full state records a payload exactly when its witness leaves are all zero and neither its nullifiers nor its notes repeat |
| `Refinement.ExecutesIffApplied` | contracts/hyli-utxo-state/src/state.rs:358-441 | Agreement about what the contract does, in every well-formed state: a transaction whose blob checks pass runs on its own witness and the witness commits if and only if the full state records its payload |
| `Refinement.RepeatedKeyExecutes` | contracts/hyli-utxo-state/src/state.rs:358-441 | Running alone does not mean that the full state accepts: with new keys, one of them repeated, the transaction runs, the commitment fails before and afterwards, and the full state rejects the payload |
| `Refinement.WitnessExecutesIff` | contracts/hyli-utxo-state/src/state.rs:358-404 | A transaction whose blob checks pass runs on a witness read for any payload if and only if the numbers of real notes and nullifiers are the same and the full state holds none of that payload's keys; the keys need not be the transaction's |
| `Refinement.RejectedCallStalls` | contracts/hyli-utxo-state/src/state.rs:443-469 | A list with a rejected call: the calls before it run as in the full state, the rejected one is recorded as changing nothing and leaves the batch where it was: if its payload parsed, its own witness stays in front of those of the later calls, and the next call is run on it; if it did not parse the later calls stay in step |
| `Refinement.DoubleSpendBlocksBatch` | contracts/hyli-utxo-state/src/state.rs:443-469 | One double spend blocks the rest of its batch for good: after any accepted calls, a call with different keys of which one is recorded already, and every call after it whatever they are, are all recorded as rejections, with the full state's commitment before that call on both sides |
| `Refinement.StaleWitnessRejects` | contracts/hyli-utxo-state/src/state.rs:368-384 | The witness of another call with other numbers of real notes or nullifiers rejects the transaction |
| `Refinement.CollectContributed` | server/src/hyli_utxo_state_client.rs:151-191 | For any list, applied or not, the merged batch runs one witness state per call whose payload parses, each read from the state before that call |
| `Soundness.SoundIff` | contracts/hyli-utxo-state/src/state.rs:358-441 | For a witness state built by anyone that commits to the full state and executes: the full state applies the payload too and commits alike afterwards if and only if both witnesses are about the transaction's own keys and open them with a multi-proof where there are any; collisions, which are exhibited, excepted |
| `Soundness.AnyWitnessIsSound` | contracts/hyli-utxo-state/src/state.rs:358-441 | The direction that safety rests on, without the trees' own collisions: witnesses about the transaction's own keys that use a multi-proof exactly when there are any, commit to the full state and execute, mean that the full state records the payload and commits alike |
| `Soundness.FollowsIff` | contracts/hyli-utxo-state/src/zk/mod.rs:78-102 | One witness: with its leaves overwritten it gives the root of the enlarged tree exactly when it opens the transaction's own keys with a multi-proof, or there are none |
| `Soundness.UnopenedIsAccepted` | contracts/hyli-utxo-state/src/zk/mod.rs:78-80 | Leaves under a root that is merely recorded prove nothing: for every state and every transaction whose blob checks pass, such witnesses commit to the state, execute, and commit to it unchanged afterwards |
| `Soundness.SpentNullifierIsAccepted` | contracts/hyli-utxo-state/src/zk/mod.rs:78-80 | ... also when a nullifier was spent before, which the full state rejects |
| `Soundness.OtherKeysAreAccepted` | contracts/hyli-utxo-state/src/state.rs:386-402 | Opening any other new keys, as many of them, commits to the state and executes just as well, since leaves and commitments are paired by position |
| `Soundness.WindowIsFree` | contracts/hyli-utxo-state/src/state.rs:314-316 | The window of roots is not committed to: a transaction accepted with some window is accepted with one that holds nothing but the root it names, in a state with the same commitment |
| `Soundness.RootBinds` | contracts/hyli-utxo-state/src/zk/mod.rs:93-99 | Two trees with one root have the same leaves, or their child digests differ under one digest somewhere |
| `Soundness.ForeignWitness` | contracts/hyli-utxo-state/src/zk/mod.rs:78-102 | An all-zero witness that opens the given keys to the root of a tree proves them absent and distinct, and filled with new commitments gives the enlarged tree's root, unless it exhibits a collision; leaves under a recorded root are the case of the two lemmas above |
| `MultiProof.ProofFoldsToNode` | contracts/hyli-utxo-state/src/zk/mod.rs:93-99 | Multi-proof correctness: whatever values are filled in at the proven keys, the proof folds to the digest of the tree in which exactly those leaves have those values |
| `MultiProof.OpeningBinds` | contracts/hyli-utxo-state/src/zk/mod.rs:93-99 | Multi-proof binding: any proof that folds to a tree's digest opens its keys to the tree's own leaves, or two different child pairs merge alike at one of its forks |
| `MultiProof.OpeningDistinct` | contracts/hyli-utxo-state/src/zk/mod.rs:78-102 | A multi-proof that computes to a digest opens every key at most once |
| `MultiProof.OpeningUpdates` | contracts/hyli-utxo-state/src/zk/mod.rs:93-99 | Other values put into such a proof fold to the digest of the tree with exactly those leaves rewritten |
| `SparseMerkle.NodeFrame` | contracts/hyli-utxo-state/src/zk/smt.rs:222-230 | The digest of a subtree depends only on the leaves below it |
| `Bytes.TurnIsDigit` | contracts/hyli-utxo-state/src/zk/smt.rs:273-301 | The turn towards a key's leaf h levels above the leaves is to the right exactly when the key, read as a number with its first byte the least significant, has a one as its binary digit of weight 2 to the h |
| `SparseMerkle.LowestBranch` | contracts/hyli-utxo-state/src/zk/smt.rs:222-230 | The branch above two leaves whose keys follow one another as numbers merges the even one on the left with the odd one on the right |
| `SparseMerkle.SMT.constructor` | contracts/hyli-utxo-state/src/zk/smt.rs:188-193 | An empty tree: no leaves, and the zero root is the digest of the empty leaf map |
| `SparseMerkle.SMT.UpdateLeaf` | contracts/hyli-utxo-state/src/zk/smt.rs:222-230 | Changing one leaf from the leaf up to the root leaves a tree whose root and stored branches are those defined by the new leaf map, a leaf set to zero being removed |
| `SmtCodec.Serialize` | contracts/hyli-utxo-state/src/zk/smt.rs:259-271 | Writes root, leaf count cut to 32 bits, and every leaf once in whatever order they are enumerated |
| `SmtCodec.StoredBytes` | contracts/hyli-utxo-state/src/zk/smt.rs:259-271 | The bytes: the root, the count in four bytes, and for each leaf in turn its key and then its value |
| `SmtCodec.Deserialize` | contracts/hyli-utxo-state/src/zk/smt.rs:303-322 | Rebuilds the tree leaf by leaf, fails on missing bytes or when the rebuilt root is not the recorded one, and otherwise holds the decoded leaves with the matching root |
| `SmtCodec.RoundTrip` | contracts/hyli-utxo-state/src/zk/smt.rs:259-322 | A stored tree comes back with the same leaves for every order of enumeration, exactly when it has fewer than 2^32 leaves |
| `SmtCodec.DecodesIffRoot` | contracts/hyli-utxo-state/src/zk/smt.rs:303-324 | Stored leaves are read back under their own root and rejected under every other |
| `SmtCodec.TooManyLeaves` | contracts/hyli-utxo-state/src/zk/smt.rs:259-322 | With 2^32 leaves or more whatever is decoded has fewer leaves than were written |
| `SmtCodec.MerkleProof` | contracts/hyli-utxo-state/src/zk/smt.rs:283-289 | The bitmap marks exactly the levels with a non-empty sibling, and the path lists exactly those siblings, deepest first |
| `SmtCodec.BuildSiblings` | contracts/hyli-utxo-state/src/zk/smt.rs:283-301 | Entry h of the array is the digest of the sibling subtree h levels above the leaf, for all 256 levels |
| `SmtCodec.SiblingsProveLeaf` | contracts/hyli-utxo-state/src/zk/smt.rs:283-301 | The siblings fold from the stored leaf, an absent one included, to the tree's root, and from any other value to the root of the tree with only that leaf changed |
| `StateCodec.CloneRoundTrip` | server/src/hyli_utxo_state_client.rs:48-56 | A clone made by encoding and decoding has the same notes, nullifiers and root window, for every order of enumeration, exactly when both trees have fewer than 2^32 leaves |
| `StateCodec.StateBytes` | server/src/hyli_utxo_state_client.rs:48-56 | The stored state starts with the notes tree, then the tree of nullifiers, then the number of roots |
| `StateCodec.TrailingBytesRejected` | server/src/hyli_utxo_state_client.rs:48-56 | Bytes beyond the stored state are an error |
| `UtxoState.HyliUtxoState.constructor` | contracts/hyli-utxo-state/src/state.rs:26-31 | A new state has empty trees and an empty root window |
| `UtxoState.HyliUtxoState.UpdateRoots` | contracts/hyli-utxo-state/src/state.rs:88-98 | The fingerprint of the notes root goes in front of the window, which forgets what exceeds 1000; the trees are untouched |
| `UtxoState.HyliUtxoState.RecordCreated` | contracts/hyli-utxo-state/src/state.rs:100-115 | Stores the non-zero commitments in order up to the first that is already there; the nullifier tree and the window are untouched |
| `UtxoState.HyliUtxoState.RecordNullified` | contracts/hyli-utxo-state/src/state.rs:144-172 | Stores the nullifiers that are neither zero nor padding, in order, up to the first that is already there; nothing else changes |
| `UtxoState.HyliUtxoState.CommitmentBytes` | contracts/hyli-utxo-state/src/state.rs:253-262 | 64 bytes: first the root that the notes' leaf map defines, then the nullifiers' |
| `UtxoState.RecordSucceedsIff` | contracts/hyli-utxo-state/src/state.rs:100-172 | Recording succeeds exactly when the real keys are pairwise different and all new, and then adds exactly those keys |
| `UtxoState.RecordKeepsLeaves` | contracts/hyli-utxo-state/src/state.rs:100-172 | Recording, failed or not, never removes a leaf, and every leaf equals its key and is neither zero nor the padding nullifier |
| `UtxoState.FailedRecordUnchangedIff` | contracts/hyli-utxo-state/src/state.rs:100-172 | A failed recording leaves the tree as it was exactly when the very first real key was already there |
| `ZkVm.Resized` | contracts/hyli-utxo-state/src/state.rs:184-191 | An array of exactly 1000 fingerprints: the window's in order, then zeros |
| `ZkVm.HyliUtxoZkVmBatch.ExtendWith` | contracts/hyli-utxo-state/src/state.rs:55-61 | Puts the other batch's stack and current state below its own stack and keeps its current state |
| `ZkVm.HyliUtxoZkVmBatch.AdvanceStep` | contracts/hyli-utxo-state/src/state.rs:63-69 | The top of the stack becomes current; past the last one a blank state does |
| `ZkVm.HyliUtxoZkVmBatch.OverwriteValues` | contracts/hyli-utxo-state/src/state.rs:386-402 | Every leaf takes the commitment at its own position and keeps its key |
| `ZkVm.HyliUtxoZkVmBatch.ApplyActionInPlace` | contracts/hyli-utxo-state/src/state.rs:358-405 | Overwrites the witness leaves if both leaf counts match the filtered keys, and otherwise changes nothing |
| `ZkVm.HyliUtxoZkVmBatch.ExecuteInPlace` | contracts/hyli-utxo-state/src/state.rs:408-446 | Runs the checks in order and applies the action to the current state; any failing check leaves the batch as it was |
| `ZkVm.HyliUtxoZkVmBatch.OnSuccess` | contracts/hyli-utxo-state/src/state.rs:464-468 | Returns the commitment of the state just executed, which there is exactly when both witnesses compute a root, 64 bytes with the created notes' root first, and moves on to the next |
| `ZkVm.CommitIsBothRoots` | contracts/hyli-utxo-state/src/state.rs:420-441 | A witness state commits exactly when both witnesses compute a root, to the created notes' root followed by the nullifiers' |
| `ZkVm.BlankCommitsToEmpty` | contracts/hyli-utxo-state/src/state.rs:268-275 | The blank state commits to two empty trees |
| `ZkVm.ChecksPassIff` | contracts/hyli-utxo-state/src/state.rs:285-356 | For any callees and window: the blob checks pass exactly when the first callee of the inclusion contract carries a root of the window and the two nullifiers of the first UTXO blob in their order, and there is no other callee but at most one of the token contract |
| `ZkVm.TokenCalleesIff` | contracts/hyli-utxo-state/src/state.rs:334-353 | Besides the inclusion blob exactly the empty list and one token blob pass; two token blobs do not |
| `TxBuilder.ParseIff` | contracts/hyli-utxo-state/src/state.rs:396-418 | A call parses exactly when its blob carries an action and declares as callees the blobs that name it as caller, no more and no fewer |
| `TxBuilder.NamingInOrder` | contracts/hyli-utxo-state/src/state.rs:300-308 | The callees are the blobs that name the caller in their order in the transaction |
| `ZkVm.ExtendAppends` | contracts/hyli-utxo-state/src/state.rs:55-61 | Extending a batch appends the other batch's run order to its own |
| `ZkVm.ExtendAssociative` | contracts/hyli-utxo-state/src/state.rs:55-61 | Extending is associative for batches of any length |
| `ZkVm.AdvanceConsumesHead` | contracts/hyli-utxo-state/src/state.rs:63-69 | Advancing removes the head of the run order; after the last state a blank one follows |
| `Executor.HyliUtxoStateExecutor.constructor` | server/src/hyli_utxo_state_client.rs:59-64 | A new executor holds the empty state |
| `Executor.HyliUtxoStateExecutor.ApplyInPlace` | server/src/hyli_utxo_state_client.rs:80-105 | Nullifiers first, then notes, then the window, stopping at the first failure and keeping what was written before it |
| `Executor.HyliUtxoStateExecutor.HandleInPlace` | server/src/hyli_utxo_state_client.rs:193-251 | The new state and outcome of a call, with the commitments before and after it, each the notes root followed by the nullifiers' root |
| `Executor.HandleIff` | server/src/hyli_utxo_state_client.rs:193-251 | A call is applied exactly when the blob it is addressed to carries an action, the first UTXO blob parses, and what it spends and creates is new; it is ignored exactly when its own blob carries no action; without an action or a payload nothing changes |
| `Executor.PayloadReadIff` | server/src/hyli_utxo_state_client.rs:107-116 | The payload is read from the first UTXO blob, if that has 128 bytes: two notes, then two nullifiers |
| `Executor.CountedIff` | contracts/hyli-utxo-state/src/state.rs:116-142 | Zero counts neither as a note nor as a nullifier, the padding nullifier not as a nullifier, and everything else counts |
| `Executor.HandleKeepsLedger` | server/src/hyli_utxo_state_client.rs:193-251 | Every call, failed or half-applied, keeps the state well formed and forgets no note and no nullifier |
| `Executor.AppliedIff` | server/src/hyli_utxo_state_client.rs:95-104 | A payload is applied exactly when its nullifiers and its notes are each pairwise different and all new |
| `Executor.AppliedStores` | server/src/hyli_utxo_state_client.rs:95-104 | An applied payload adds exactly its real nullifiers and notes to the trees |
| `Executor.FailedCallUnchangedIff` | server/src/hyli_utxo_state_client.rs:95-104 | Applying is not atomic: a failed call leaves the state untouched exactly when its first real nullifier was already spent, or it has none and its first real note already existed |
| `Executor.HalfApplied` | server/src/hyli_utxo_state_client.rs:95-104 | The input, on every state that holds a spent nullifier: a call with a new nullifier before the spent one fails, leaves exactly the new one behind, and from then on no call can spend it |
| `Executor.AppliedStaysRecorded` | server/src/hyli_utxo_state_client.rs:193-251 | What a successful call spent or created stays recorded through any later calls |
| `Executor.NoDoubleSpend` | server/src/hyli_utxo_state_client.rs:193-251 | Over any run, failed and half-applied calls included, a successful call repeats no nullifier or note within itself and shares none with an earlier successful call |
| `RootWindow.RootsAfterRun` | contracts/hyli-utxo-state/src/state.rs:88-98 | After any run the window is the newest recorded fingerprints followed by the old window, cut at 1000; failed calls leave no trace in it |
| `RootWindow.AcceptedIff` | contracts/hyli-utxo-state/src/state.rs:184-191 | The array accepts exactly the fingerprints in the window, and the zero fingerprint while the window is not full |
| `RootWindow.RootStaysAccepted` | contracts/hyli-utxo-state/src/state.rs:314-316 | A recorded root is accepted as long as fewer than 1000 calls were applied after it, and from then on exactly when one of the last 1000 recorded the same fingerprint |
| `Blobs.StructuredRoundTrip` | contracts/hyli-utxo-state/src/state.rs:277-283 | A structured blob with caller, callees and parameters decodes to what it was encoded from |
| `Blobs.StructuredIff` | contracts/hyli-utxo-state/src/state.rs:277-283 | The bytes that decode to a structured blob are exactly those it encodes to |
| `Blobs.VecIff` | contracts/hyli-utxo-state/src/state.rs:277-283 | The bytes that decode to a byte vector are exactly its length in four bytes and the vector |
| `Blobs.StructuredBytes` | contracts/hyli-utxo-state/src/state.rs:277-283 | The bytes of a blob that names a caller and of one that names a callee, tag by tag, then the parameters |
| `Bytes.LittleEndianAt` | contracts/hyli-utxo-state/src/zk/smt.rs:259-264 | A number's byte i is its digit of weight 256 to the i |
| `TxBuilder.ConcatParses` | contracts/hyli-utxo-state/src/state.rs:471-493 | Parsing a UTXO blob gives back the four hashes it was laid out from, outputs first |
| `TxBuilder.FaucetApp.FillBlob` | server/src/app.rs:220-251 | The 128 bytes are the two commitments and then the two nullifiers; the last nullifier is remembered |
| `TxBuilder.FaucetApp.BuildTransaction` | server/src/app.rs:207-315 | The blobs of a mint in order, followed by those that were supplied; the note index wraps at 2^64 and the notes root stays |
| `TxBuilder.MintAccepted` | contracts/hyli-utxo-state/src/state.rs:285-356 | A mint or deposit passes the contract's checks exactly when its notes root is in the window and no other blob names the state blob as its caller; its nullifiers always match |
| `TxBuilder.DepositBlobsQuiet` | server/src/app.rs:287-310 | Of the blobs added to a mint only the caller-supplied ones can name the state blob as caller; the token blob of a deposit never does |
| `TxBuilder.MintPayload` | server/src/app.rs:215-251 | The contract reads from a mint exactly the minted commitment and no real nullifier |
| `TxBuilder.HashedFields` | pkg/zk-primitives/src/note.rs:90-107 | A commitment hashes kind, contract, value, address and psi in this order and two zeros, or is zero for a note without value; a nullifier hashes psi and secret key |
| `TxBuilder.ExtrasInOrder` | server/src/app.rs:287-310 | The supplied blobs follow in a fixed order, the deposit's token blob, which names no caller, last |
| `TxBuilder.TransferAccepted` | server/src/api.rs:449-539 | A transfer or withdraw builds exactly when it has an inclusion payload, sent along or made of the two input notes' nullifiers in order and the root, and then passes the checks exactly when that root is in the window, the payload repeats the blob's nullifiers, the blob's bytes do not name the state blob as caller and a withdrawn token is the configured one |
| `TxBuilder.PayloadIff` | server/src/api.rs:729-764 | A computed payload is the hash of the first note's psi and key, that of the second note's, and the notes root, and there is none exactly when a part is missing or the root does not have 32 bytes |
| `TxBuilder.OwnNullifiersAccepted` | server/src/api.rs:729-764 | A transfer whose blob ends in the nullifiers of its own input notes builds, and passes exactly when the root is in the window, the blob's bytes do not name the state blob as caller and a withdrawn token is the configured one |
| `TxBuilder.PlainAccepted` | contracts/hyli-utxo-state/src/state.rs:285-356 | Without a token callee the checks pass exactly under those conditions and when no further blob is a callee |
| `TxBuilder.WithdrawAccepted` | contracts/hyli-utxo-state/src/state.rs:334-353 | With a token callee they pass exactly when it also belongs to the configured token contract |
| `Acceptance.BuiltAcceptedIff` | server/src/hyli_utxo_state_client.rs:193-251 | A transaction with the server's blob layout is accepted by the executor and the contract exactly when it passes the contract's checks and its nullifiers and notes are pairwise different and new: the premise of the refinement |
| `Acceptance.MintAcceptedIff` | server/src/app.rs:207-315 | A mint is accepted by both copies exactly when its notes root is in the window, its commitment is new and no further blob names the state blob as its caller |
| `Acceptance.TransferAcceptedIff` | server/src/api.rs:449-539 | A transfer or withdraw that builds is accepted by both copies exactly when it passes the checks and neither spends nor creates anything twice |
| `NoteSelection.NoChoiceBeats` | front/src/services/TransferService.ts:178-201 | No choice of at most m notes totals more than the best sum of m notes |
| `NoteSelection.BestChoice` | front/src/services/TransferService.ts:178-201 | Some choice of at most m notes totals exactly the best sum |
| `NoteSelection.MergeGainsAtMostOne` | front/src/services/TransferService.ts:568-590 | Merging any two notes lets m notes reach at most what m + 1 notes reached before |
| `NoteSelection.MergedPairGainsOne` | front/src/services/TransferService.ts:556-563 | Merging the two largest lets m notes reach exactly what m + 1 reached before |
| `NoteSelection.NoFasterMerging` | front/src/services/TransferService.ts:596-636 | Optimality: no sequence of pairwise merges makes two notes cover the amount in fewer rounds than the notes needed at the start less two |
| `NoteSelection.NeededIff` | front/src/services/TransferService.ts:596-636 | The notes needed are at most m exactly when the best m notes cover the amount |
| `Selection.SortBySorts` | front/src/services/TransferService.ts:175-176 | The sort permutes its input and orders it by key |
| `Selection.FindSingle` | front/src/services/TransferService.ts:178-187 | The first single note that covers the amount, and none exactly when no note does |
| `Selection.FindPair` | front/src/services/TransferService.ts:189-201 | The first pair that covers the amount, ordered by its first and then its second note, and none exactly when no pair does |
| `Selection.SelectNotes` | front/src/services/TransferService.ts:167-204 | Fails exactly when there is no note or the two largest do not cover the amount; otherwise spends notes that were offered, a single one if any suffices and then the smallest, with total less amount as change; it is the first single note, or the first pair, of the notes sorted by value |
| `Selection.SmallestPair` | front/src/services/TransferService.ts:189-201 | No pair that covers the amount has a smaller note of less value than the one selected, nor with a smaller note of that value a larger one of less |
| `Selection.SortByStable` | front/src/services/TransferService.ts:176 | Sorting keeps notes of equal value in the order in which they were offered |
| `Selection.NeedsConsolidation` | front/src/services/TransferService.ts:544-551 | True exactly when all notes together cover the amount but the best two do not, or there is no note |
| `Selection.NotesForConsolidation` | front/src/services/TransferService.ts:556-563 | The first two notes in descending order, which no other note exceeds, and none exactly when fewer than two have value |
| `Selection.NeededMeansMergeable` | front/src/services/TransferService.ts:609-614 | When consolidation is reported as needed there are two notes to merge, except for an amount of zero or less and no note |
| `Wallet.MarkedStaysPending` | front/src/services/noteStorage.ts:245-308 | A marked note stays pending until its own timeout through any marking, clearing and cleaning of others |
| `Wallet.PendingIff` | front/src/services/noteStorage.ts:245-330 | A psi blocks a note exactly while some record that holds it is younger than five minutes |
| `Wallet.ClearedIsNotPending` | front/src/services/noteStorage.ts:301-308 | After clearing none of the cleared notes is pending at any time |
| `Wallet.PendingSpendableIff` | front/src/services/TransferService.ts:686-698 | A pending psi is on offer exactly if an owned note without psi is offered under it: carrying a psi is what keeps a pending note off |
| `Wallet.SpendableExactly` | front/src/services/TransferService.ts:677-719 | What is on offer is exactly the stored notes that have the owner's address, are not optimistic, have value and are not pending under their own psi, each with its value and under its psi or, without one, under 64 zeros |
| `Wallet.SpendableOnce` | front/src/services/TransferService.ts:699-717 | With unique psis a psi occurs twice on offer only if it stands for stored notes without psi |
| `Wallet.TransferConservesIff` | front/src/services/TransferService.ts:338-356 | A settled transfer lowers the stored total by at most the amount, change included, and by exactly the amount if and only if no note without psi is spent, whatever is pending |
| `Wallet.ChangeIsOffered` | front/src/services/TransferService.ts:338-356 | After a transfer the change, if any, is on offer in front of what is left of the notes on offer before |
| `Wallet.OfferFallsIff` | front/src/services/TransferService.ts:338-356 | What can be spent falls by exactly the amount if and only if no note without psi is spent, whatever is pending |
| `Wallet.TransferWithoutPsi` | front/src/services/TransferService.ts:338-343 | The input: a wallet of one note of 5 without psi that spends 5 still holds it |
| `Wallet.RemovePairTotals` | front/src/services/TransferService.ts:338-343 | Removing two spent notes by psi takes out exactly the value and the number of those that carry one |
| `Consolidation.MergeStep` | front/src/services/TransferService.ts:568-590 | Merging the two largest notes, neither of them without psi, keeps the stored total and leaves one spendable note fewer whose best m reach what the best m + 1 reached |
| `Consolidation.MergeConservesIff` | front/src/services/TransferService.ts:568-590 | A merge keeps the stored total if and only if neither note lacks a psi, and otherwise raises it, whatever is pending |
| `Consolidation.MergingStep` | front/src/services/TransferService.ts:609-625 | A round keeps a settled wallet settled, its total unchanged, and advances the measure of progress by exactly one note |
| `Consolidation.RoundsAreNeeded` | front/src/services/TransferService.ts:609-625 | Stopping at the first round after which two notes cover the amount means having made max(0, k - 2) rounds, k being the least number of notes that covered it at the start |
| `Consolidation.RemovalShrinks` | front/src/services/TransferService.ts:338-343 | If every spendable note carries a psi, spending two removes at least two stored notes, whatever psis they share: the loops' termination measure |
| `Consolidation.RemovalShrinksIff` | front/src/services/TransferService.ts:338-343 | With unique psis it removes both if and only if neither lacks a psi |
| `Consolidation.TransferTried` | front/src/services/TransferService.ts:627-635 | For a settled wallet the final transfer succeeds exactly when selection and submission do, lowers the total by the amount, and took exactly the rounds needed |
| `Consolidation.NothingToMerge` | front/src/services/TransferService.ts:613-614 | Reported need without two notes to merge happens only for an empty wallet before any round, and then nothing is sent |
| `Rounds.RunMerges` | front/src/services/TransferService.ts:609-625 | After any number of rounds a settled wallet is settled, with its total, and one spendable note fewer per round |
| `Rounds.RunTotalsIff` | front/src/services/TransferService.ts:609-625 | In any wallet with unique psis, records of other transfers pending or expiring meanwhile: rounds of merging never lower the stored total, and keep it if and only if no round merges a note without psi |
| `Rounds.AttemptBooked` | front/src/services/TransferService.ts:609-636 | ... and with the transfer at the end the total is at least what it was less what was sent, and exactly that if every spendable note carries a psi |
| `Rounds.RunShrinks` | front/src/services/TransferService.ts:609-625 | If every spendable note carries a psi, the number of rounds is bounded by the number of stored notes, in any wallet |
| `Rounds.RunGains` | front/src/services/TransferService.ts:609-625 | In a wallet that starts ready each round made towards an amount raises what two notes reach, whether notes carry psis or not: the amount bounds the rounds |
| `Rounds.RunNeverEnds` | front/src/services/TransferService.ts:655-669 | With a spendable note without psi and another one there are two notes to merge after every round |
| `Rounds.EndlessRun` | front/src/services/TransferService.ts:643-672 | The input: two notes without psi and merges that succeed have a run of every length, with two notes to merge at its end |
| `TransferService.PlayerWallet.MarkNotesPending` | front/src/services/noteStorage.ts:289-296 | Adds a record with the time after dropping expired ones |
| `TransferService.PlayerWallet.ClearPendingNotes` | front/src/services/noteStorage.ts:301-308 | Keeps the unexpired records that share no psi with the given ones |
| `TransferService.PlayerWallet.GetSpendableNotes` | front/src/services/TransferService.ts:677-719 | An input is returned exactly if some stored note is owned, settled, with value and not pending under its own psi and reads as that input; the order is that of the store |
| `TransferService.PlayerWallet.ExecuteTransfer` | front/src/services/TransferService.ts:228-386 | Succeeds exactly when a selection exists and submission succeeds; then the spent notes are replaced by the change; a failed transfer leaves the notes as they were; every exit after marking clears the marks |
| `TransferService.PlayerWallet.SpendSelected` | front/src/services/TransferService.ts:241-386 | The selected notes are replaced by the change exactly when submission succeeds; the marks set before it are cleared either way |
| `TransferService.PlayerWallet.ExecuteConsolidation` | front/src/services/TransferService.ts:568-590 | A merge replaces two notes by one with their total value, or leaves the notes as they were |
| `TransferService.PlayerWallet.MergeRound` | front/src/services/TransferService.ts:613-624 | A successful round turns the wallet into the one a merge of the given pair leads to, read again; a failed one changes no note |
| `TransferService.PlayerWallet.MergeWhileNeeded` | front/src/services/TransferService.ts:609-625 | The loop makes a run of rounds, each needed for the amount, and stops because none is needed any more, no two notes are left, or a merge failed |
| `TransferService.PlayerWallet.MergeWhileTwo` | front/src/services/TransferService.ts:655-669 | The loop makes a run of rounds and stops because fewer than two notes are on offer, no two with value are, or a merge failed |
| `TransferService.PlayerWallet.ExecuteTransferWithConsolidation` | front/src/services/TransferService.ts:596-636 | The loop ends within one round more than there are notes if every spendable note carries a psi, and within as many rounds as the amount in any wallet that starts ready; in any wallet with unique psis, other transfers under way or not, the total goes down by what was sent, exactly so if every spendable note carries a psi; in a settled wallet what can be spent goes down by what was sent, a transfer made took exactly the rounds needed, one not made took no more, and it is made whenever the balance covers the amount, there is a note, and no step fails |
| `TransferService.PlayerWallet.ConsolidateAll` | front/src/services/TransferService.ts:643-672 | When every merge succeeds in a wallet of two or more notes that starts ready, the loop ends if and only if every spendable note carries a psi; then one note with the whole value is left after one round less than there were notes; no outcome lowers the total, and it stays the same if every spendable note carries a psi, other transfers under way or not |
| `BatchQueue.SharedQueue.constructor` | pkg/primitives/src/batch.rs:178-189 | An empty queue, nothing scheduled |
| `BatchQueue.SharedQueue.Enqueue` | pkg/primitives/src/batch.rs:208-232 | Appends the item and schedules a batch exactly when none is scheduled and none is being processed |
| `BatchQueue.SharedQueue.WaitDuration` | pkg/primitives/src/batch.rs:255-267 | The time left until the scheduled batch is due, none if nothing is scheduled |
| `BatchQueue.SharedQueue.TakeItems` | pkg/primitives/src/batch.rs:272-278 | Takes all items at once and marks the queue as processing |
| `BatchQueue.SharedQueue.Finish` | pkg/primitives/src/batch.rs:302-339 | Records the end on every path, keeps the items, and schedules another batch exactly when items came in meanwhile |
| `BatchQueue.DueAt` | pkg/primitives/src/batch.rs:218-225 | The earliest time that respects both the delay after the call and the interval after the last batch |
| `BatchProtocol.OneWorker` | pkg/primitives/src/batch.rs:207-346 | Under every interleaving at most one worker is alive, one is whenever an item waits, and the processor never sees an empty batch |
| `BatchProtocol.StepKeepsInv` | pkg/primitives/src/batch.rs:207-346 | Every step keeps queue, workers, calls, batches and answers in agreement |
| `BatchProtocol.OwnAnswer` | pkg/primitives/src/batch.rs:285-299 | Answers go out in the order the calls came in, at most one per call, each the result at the call's own position of its own batch or that batch's error |
| `BatchProtocol.QuietMeansAnswered` | pkg/primitives/src/batch.rs:207-346 | When no worker is left every call has been answered exactly once |
| `BatchProtocol.ElementwiseAnswer` | pkg/primitives/src/batch.rs:42-46 | With a processor that returns one result per item in order, every caller gets the result of its own item |
| `BatchProtocol.NobodyDroppedIff` | pkg/primitives/src/batch.rs:285-291 | Nobody is told that the worker was dropped exactly when no batch got fewer results than it had items |
| `BatchProtocol.WorkersComeToRest` | pkg/primitives/src/batch.rs:249-346 | Without new calls the workers stop within a bound, in whatever order they move, and then every call has been answered |
| `BatchProtocol.AnsweredAfter` | pkg/primitives/src/batch.rs:249-346 | A busy service starves nobody: whatever calls arrive meanwhile, a call is answered exactly when the workers have taken a number of steps that is fixed once it is queued, at most the unanswered calls before it and seven |
| `BatchProtocol.IdleBatchesAreThrottled` | pkg/primitives/src/batch.rs:214-228 | A batch scheduled by a call starts neither before the delay after that call nor before the minimum interval after the last time a worker was done, as the run's own events give it |
| `BatchProtocol.IdleCallWaits` | pkg/primitives/src/batch.rs:214-271 | The same told by a run's events alone: after a call that arrives while no worker is alive, the next worker to wake up for a batch does so neither before the delay after that call nor before the interval after the last time a worker was done |
| `BatchProtocol.LastEndKept` | pkg/primitives/src/batch.rs:302-306 | After every run the queue holds the time the last worker to be done recorded, whether or not that worker chained another batch, and none if no worker was done |
| `BatchProtocol.ChainedThrottledIff` | pkg/primitives/src/batch.rs:302-339 | In every reachable state a worker that ends a batch while items wait schedules the next one, and that one is due a minimum interval later exactly when the interval went by while the worker held the lock |
| `BatchProtocol.ThrottledStepIff` | pkg/primitives/src/batch.rs:207-346 | In every reachable state a step that schedules a batch respects the minimum interval at all times if and only if it is a call or the interval is zero |
| `BatchProtocol.ChainedBatchIsNotThrottled` | pkg/primitives/src/batch.rs:302-344 | For every configuration a run in which the second batch starts at the instant the first one ends |
| `BatchProtocol.AllBatchesSpacedIff` | pkg/primitives/src/batch.rs:145-146 | Every batch of every run starts a minimum interval after the one before it if and only if that interval is zero |
| `Pool.PoolState.Get` | pkg/primitives/src/pool.rs:45-60 | Takes the value idle for longest, or a place at the end of the queue |
| `PoolProtocol.FirstIdleFirstOut` | pkg/primitives/src/pool.rs:45-111 | Over every run the values that get calls take at once are the first of those put in and of those that became idle since, in this order |
| `Pool.PoolState.GiveBack` | pkg/primitives/src/pool.rs:83-110 | The value goes to the first waiter still there, dropping those in front that have gone, else it becomes idle |
| `PoolProtocol.FirstOpenWaitedLongest` | pkg/primitives/src/pool.rs:89-92 | The first queue entry still there is the caller who has waited longest, and there is none exactly when nobody waits |
| `PoolProtocol.DroppedServesLongest` | pkg/primitives/src/pool.rs:82-111 | A value given back goes to whoever has waited longest, nobody else is affected, and it becomes idle when nobody waits |
| `PoolProtocol.StepEffect` | pkg/primitives/src/pool.rs:45-111 | Each step's effect on every caller: who gets which value, who waits, who is done, and that nobody else changes |
| `PoolProtocol.StepConserves` | pkg/primitives/src/pool.rs:45-111 | No get, pick-up, drop or cancellation loses a value or makes one |
| `PoolProtocol.ValuesConserved` | pkg/primitives/src/pool.rs:45-111 | Over every run each value is idle, held or on its way exactly as often as it was put in |
| `PoolProtocol.ServedInOrder` | pkg/primitives/src/pool.rs:45-111 | While a caller waits no value is idle, and nobody who came later has been served |
| `PoolProtocol.NobodyLeftWaiting` | pkg/primitives/src/pool.rs:45-111 | Once all values of a non-empty pool are back, all are idle and nobody is left waiting |
| `MerklePath.ComputeMerkleRootFromIter` | pkg/hash/src/path.rs:74-89 | The fold of the siblings from the leaf, each put on the side its bit says |
| `MerklePath.ComputeMerklePathForLeaf` | pkg/hash/src/path.rs:96-114 | Entry i of the list is the fold of the first i siblings |
| `MerklePath.SamePathIff` | pkg/hash/src/path.rs:136-144 | Two elements take the same path exactly when they agree modulo the number of leaves |
| `MerklePath.BitOfElement` | pkg/hash/src/path.rs:136-144 | Bit i of an element is its binary digit of weight 2 to the i |
| `MerklePath.ElementPlace` | pkg/hash/src/path.rs:60-72 | In a tree with its leaves numbered from left to right an element leads to the leaf whose number is the element modulo the number of leaves |
| `MerklePath.FoldOfTwo` | pkg/hash/src/path.rs:74-89 | Two levels spelled out: an odd element is the right child, and its parent is on the side that the next digit says |
| `MerklePath.FoldReplaces` | pkg/hash/src/path.rs:60-72 | For a tree of any depth, folding a leaf's siblings from any value gives the root of the tree with that leaf replaced by it |
| `MerklePath.ReplaceChangesOneLeaf` | pkg/hash/src/path.rs:60-72 | Replacing a leaf changes the leaf at that path and no other |
| `MerklePath.InsertionRoots` | pkg/zk-primitives/src/merkle_path.rs:34-46 | With the siblings of its own place the two path roots are the roots of the tree with the leaf and with the null leaf as the leaf whose number, from the left, is the element modulo the number of leaves, and no other leaf differs |
| `MerklePath.FindCollision` | pkg/hash/src/path.rs:60-89 | Binding: two different openings of one path to one root contain a step where two different pairs merge alike |
| `MerklePath.AppliedLeafIsNoPath` | pkg/zk-primitives/src/merkle_path.rs:48-83 | Applying a leaf gives one entry more than a path has, ending in the root, so only its result converts to an array of the full depth |
| `MerklePath.EmptyRootsAgree` | pkg/hash/src/path.rs:116-134 | The computed and the documented empty root agree up to depth 2, and at every depth if the null hash merges to itself |
| `MerklePath.EmptyRootsDiffer` | pkg/hash/src/path.rs:116-134 | From depth 3 on they agree exactly then, unless a level has a collision |
| `PgNumeric.CollectDigits` | pkg/element/src/diesel_pg.rs:17-36 | Cutting the decimal text into groups of four from the right gives the base-10000 digits of the value |
| `PgNumeric.ToSql` | pkg/element/src/diesel_pg.rs:12-58 | The bytes of a value: its digit count, weight, zero sign and scale, and digits |
| `PgNumeric.BytesOf12345` | pkg/element/src/diesel_pg.rs:38-58 | The bytes of one number spelled out, the more significant byte of each field first |
| `PgNumeric.FromSql` | pkg/element/src/diesel_pg.rs:60-104 | What is read from any bytes: the value, an overflow, or which error |
| `PgNumeric.RejectsIff` | pkg/element/src/diesel_pg.rs:62-88 | Bytes without a header or with a sign are rejected, bytes with all announced digits never are, and bytes with fewer give no value |
| `PgNumeric.ReadsNumeric` | pkg/element/src/diesel_pg.rs:77-102 | Well-formed bytes read as the value of their digits times the power of 10000 the weight adds, and as an overflow exactly when the value, the power or the product does not fit 256 bits |
| `PgNumeric.RoundTrip` | pkg/element/src/diesel_pg.rs:12-104 | Every 256-bit value is read back unchanged and without overflow, also after trailing zero digits are dropped and the weight kept |
| `NoteUrl.EncodePayload` | pkg/zk-primitives/src/note_url.rs:92-120 | The bytes written field by field |
| `NoteUrl.EncodedFields` | pkg/zk-primitives/src/note_url.rs:92-120 | Which bytes hold the version, the key, the psi, the count of leading zeros, the value and the referral code |
| `NoteUrl.DecodePayload` | pkg/zk-primitives/src/note_url.rs:125-175 | The payload read field by field, or a failure where the original panics |
| `NoteUrl.RoundTripIff` | pkg/zk-primitives/src/note_url.rs:92-175 | Decoding an encoded payload gives it back with its psi made explicit exactly when the version is known, a version 0 payload has a psi and the referral code is valid UTF-8, for every value |
| `NoteUrl.ReencodeIff` | pkg/zk-primitives/src/note_url.rs:92-175 | Bytes that decode are what the payload encodes to exactly when their count of leading zeros is the value's own |
| `NoteUrl.LinkRoundTripIff` | pkg/zk-primitives/src/note_url.rs:32-61 | A link made from a note leads back to it exactly when the note is the one derived from its key |
| `NoteUrl.LinkKeepsNoteIff` | pkg/zk-primitives/src/note_url.rs:32-88 | A payload sent through a link stands for the same note exactly when its version's psi is the one its note was built with |

## Left out

- Poseidon, Keccak and the field: hashes are function parameters; the circuits are not part of this model, so nothing is said about values inside proofs.
- The sparse_merkle_tree crate's own storage and proof format (merged zero subtrees, bitmaps, the stack program): a proof is a pruned tree, the branch store a map of child digests; the crate is not part of this model.
- Duplicate keys in a multi-proof: computing a root from them is an error here; what the crate does with them is not visible, and the executor rejects such payloads anyway. `Refinement.RepeatedKeyExecutes` says how far the contract comes with them before that error.
- `sdk::parse_calldata`: modelled as "the declared callees are exactly the blobs naming this blob as caller"; the SDK's further checks of the caller's identity are not part of this model.
- Executor.HyliUtxoStateExecutor.HandleInPlace: does not tell a registration placeholder that parses from one that does not; nothing is applied either way.
- TxBuilder.TransferAccepted: assumes, like the other acceptance lemmas of that module, that the state contract and the UTXO contract have different names, as any deployment has.
- SmtCodec.BuildSiblings: does not model the reduction of a digest to a field element; an entry is the digest itself.
- Blobs.StructuredRoundTrip: Borsh is modelled for the one structure used, with lengths below 2^32 and indices below 2^64; other Borsh types are not modelled.
- Token actions: the bytes of a token transfer are a parameter.
- `executeWithdraw`: the same selection and bookkeeping as a transfer with a different blob list.
- `build_transfer_transaction` and `build_proved_transfer_blob`: older two-blob builders that carry no inclusion proof.
- Proof jobs, proof submission, HTTP handlers, the bus, metrics, React components and hooks.
- JavaScript numbers: amounts are integers; rounding above 2^53, hexadecimal parsing and address normalisation are not modelled, and a wallet holds one token contract.
- Local storage: reading back what was written always succeeds, and no other tab writes between the steps of one transfer.
- TransferService.PlayerWallet.ExecuteTransfer: the best-effort upload of the encrypted note after everything is stored is not modelled, nor are the blobs and proofs it submits; whether they go through is a parameter.
- TransferService.PlayerWallet.ConsolidateAll: takes a limit of rounds, like the transfer with consolidation, that the original does not have; a loop that never ends is one that is given up at every limit.
- BatchQueue: a processor that panics (the queue would stay marked as processing) and callers that give up waiting, whose results are dropped, are not modelled; overflow of instants is not modelled.
- BatchProtocol: the processor's call is one step from taking the batch to its outcome, and calls may arrive in between.
- Pool.PoolState.GiveBack: the check that a waiter is still there and the send to it are one step, so the branch for a send that fails after the check is not modelled.
- PoolProtocol: values are followed by identity; changing a value through its guard is not modelled.
- NoteUrl: base58 is left out, the payload is its bytes; which bytes are UTF-8 is a parameter.
- PgNumeric: negative weights and the sign and scale of numbers this code never writes are read as the code reads them, but no claim is made that they are meaningful.
- Listener sets, player name resolution, address registry, note store and the other small services: nothing in them spans several operations.
