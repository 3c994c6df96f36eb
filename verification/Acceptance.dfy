/** The transactions the server builds, seen by both copies of the state: when the executor applies them and the
    contract's checks pass, which is what the refinement asks of a run. */
module Acceptance {
  import opened Wrappers
  import opened Bytes
  import opened SparseMerkle
  import opened Blobs
  import opened UtxoState
  import opened ZkVm
  import opened Executor
  import opened Refinement
  import opened TxBuilder

  lemma LeadingIsStateAction(config: ContractConfig, stateName: string, callees: seq<nat>, data: seq<byte>, payload: seq<byte>,
                             rest: seq<Blob>)
    requires |callees| < U32_LIMIT && forall i <- callees :: i < U64_LIMIT
    requires stateName != config.utxoName && |data| == 128
    ensures var tx := Calldata(Leading(config, stateName, callees, data, payload) + rest, 0);
            IsStateAction(tx.blobs[0]) && PayloadOf(config, tx) == ParseUtxoBlob(data)
  {
    StructuredRoundTrip(Structured(None, Some(callees), STATE_ACTION));
    FindSecond(Leading(config, stateName, callees, data, payload) + rest, config.utxoName);
  }

  /** A transaction with the server's layout is accepted by both copies exactly when it passes the contract's checks
      and its nullifiers and notes are each pairwise different and new. */
  lemma BuiltAcceptedIff(merge: Merge, config: ContractConfig, ledger: Ledger, stateName: string, callees: seq<nat>,
                         data: seq<byte>, payload: seq<byte>, rest: seq<Blob>)
    requires |callees| < U32_LIMIT && forall i <- callees :: i < U64_LIMIT
    requires stateName != config.utxoName && |data| == 128
    ensures var tx, p := Calldata(Leading(config, stateName, callees, data, payload) + rest, 0), ParseUtxoBlob(data).value;
            Accepts(merge, config, ledger, tx)
            <==> PassesContract(config, Resized(ledger.roots), tx)
                 && Fresh(ledger.nullified, Spends(p)) && Fresh(ledger.notes, Creates(p))
  {
    LeadingIsStateAction(config, stateName, callees, data, payload, rest);
    AppliedIff(merge, ledger, ParseUtxoBlob(data).value);
  }

  lemma FreshOne(leaves: map<H256, H256>, key: H256)
    ensures Fresh(leaves, []) && (Fresh(leaves, [key]) <==> key !in leaves)
  {
    assert key in [key];
  }

  lemma MintIsFreshIff(config: ContractConfig, ledger: Ledger, stateName: string, hash: Hash, notesRoot: H256, note: Note,
                       extra: seq<Blob>)
    requires WellFormed(ledger)
    requires stateName != config.utxoName && MintNullifier(hash) == PADDING_NULLIFIER
    ensures var p := ParseUtxoBlob(Concat(MintEntries(hash, note))).value;
            Fresh(ledger.nullified, Spends(p)) && (Fresh(ledger.notes, Creates(p)) <==> NoteCommitment(hash, note) !in ledger.notes)
  {
    var data := Concat(MintEntries(hash, note));
    MintPayload(config, stateName, hash, notesRoot, note, extra);
    LeadingIsStateAction(config, stateName, [2], data, data[64..128] + notesRoot, extra);
    FreshOne(ledger.notes, NoteCommitment(hash, note));
    FreshOne(ledger.nullified, ZERO_HASH);
  }

  /** A mint is accepted by both copies exactly when its notes root is in the window, its commitment is new, and no
      further blob names the state blob as its caller. */
  lemma MintAcceptedIff(merge: Merge, config: ContractConfig, ledger: Ledger, stateName: string, hash: Hash, notesRoot: H256,
                        note: Note, extra: seq<Blob>)
    requires WellFormed(ledger)
    requires stateName != config.utxoName && MintNullifier(hash) == PADDING_NULLIFIER
    ensures var blobs := MintBlobs(config.utxoName, stateName, config.smtInclName, hash, notesRoot, note) + extra;
            Accepts(merge, config, ledger, Calldata(blobs, 0))
            <==> FingerprintOf(notesRoot) in Resized(ledger.roots) && NoteCommitment(hash, note) !in ledger.notes
                 && !NamesCaller(blobs[1], 0) && Quiet(extra)
  {
    var data := Concat(MintEntries(hash, note));
    MintAccepted(config, Resized(ledger.roots), stateName, hash, notesRoot, note, extra);
    MintIsFreshIff(config, ledger, stateName, hash, notesRoot, note, extra);
    BuiltAcceptedIff(merge, config, ledger, stateName, [2], data, data[64..128] + notesRoot, extra);
  }

  /** A transfer or withdraw that builds is accepted by both copies exactly when it passes the contract's checks and
      neither spends nor creates anything twice. */
  lemma TransferAcceptedIff(merge: Merge, config: ContractConfig, ledger: Ledger, stateName: string, hash: Hash,
                            request: TransferRequest)
    requires stateName != config.utxoName && |request.blobData| == 128
    requires BuildBlobTransaction(config.utxoName, stateName, config.smtInclName, hash, request).Ok?
    ensures var tx := Calldata(BuildBlobTransaction(config.utxoName, stateName, config.smtInclName, hash, request).value, 0);
            var p := ParseUtxoBlob(request.blobData).value;
            Accepts(merge, config, ledger, tx)
            <==> PassesContract(config, Resized(ledger.roots), tx)
                 && Fresh(ledger.nullified, Spends(p)) && Fresh(ledger.notes, Creates(p))
  {
    var (callees, tokenCaller) := WithdrawTopology(stateName, request.tokenTransfer);
    var rest := if request.tokenTransfer.None? then []
                else [TokenBlob(request.tokenTransfer.value.tokenContract, tokenCaller, request.tokenTransfer.value.action)];
    BuiltAcceptedIff(merge, config, ledger, stateName, callees, request.blobData, SmtPayload(hash, request).value, rest);
  }
}
