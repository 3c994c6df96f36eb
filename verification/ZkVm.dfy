/** The contract as the zkVM runs it: witness leaves and a multi-proof per transaction in place of
    the full trees, and the batch that carries one such state per transaction. */
module ZkVm {
  import opened Wrappers
  import opened Sequences
  import opened Bytes
  import opened SparseMerkle
  import opened MultiProof
  import opened Blobs
  import opened UtxoState

  datatype ContractConfig = ContractConfig(utxoName: string, smtInclName: string, smtName: string)

  datatype Proof = Opening(tree: Pruned) | CurrentRootHash(root: H256)

  datatype Witness = Witness(values: seq<WitnessLeaf>, proof: Proof)

  const DEFAULT_WITNESS := Witness([], CurrentRootHash(ZERO_HASH))

  /** Without a multi-proof the root is taken as recorded. */
  function ComputeRoot(merge: Merge, w: Witness): Result<H256, string> {
    match w.proof
    case CurrentRootHash(root) => Ok(root)
    case Opening(tree) =>
      if w.values == [] then Err("Witness set values are empty while a proof is provided")
      else ComputeNode(merge, tree, [], w.values)
  }

  predicate AllZero(w: Witness) {
    forall leaf <- w.values :: leaf.value == ZERO_HASH
  }

  function LeavesFor(leaves: map<H256, H256>, keys: seq<H256>): (values: seq<WitnessLeaf>)
    ensures |values| == |keys|
  {
    seq(|keys|, i requires 0 <= i < |keys| => WitnessLeaf(keys[i], LeafValue(leaves, keys[i])))
  }

  function BuildWitness(merge: Merge, leaves: map<H256, H256>, keys: seq<H256>): Witness {
    if keys == [] then Witness([], CurrentRootHash(Root(merge, leaves)))
    else Witness(LeavesFor(leaves, keys), Opening(Prove(merge, leaves, [], keys)))
  }

  datatype ZkVmState = ZkVmState(created: Witness, nullified: Witness, config: ContractConfig, roots: seq<Fingerprint>)

  function ZeroFingerprints(n: nat): seq<Fingerprint> {
    seq(n, _ => ZERO_FINGERPRINT)
  }

  /** The window as a fixed array: cut or filled up with zero fingerprints to `MAX_ROOTS` entries. */
  function Resized(roots: seq<Fingerprint>): (r: seq<Fingerprint>)
    ensures |r| == MAX_ROOTS
    ensures forall i | 0 <= i < MAX_ROOTS :: r[i] == if i < |roots| then roots[i] else ZERO_FINGERPRINT
  {
    if |roots| >= MAX_ROOTS then roots[..MAX_ROOTS] else roots + ZeroFingerprints(MAX_ROOTS - |roots|)
  }

  function NewState(config: ContractConfig): ZkVmState {
    ZkVmState(DEFAULT_WITNESS, DEFAULT_WITNESS, config, ZeroFingerprints(MAX_ROOTS))
  }

  function ToZkVmState(merge: Merge, ledger: Ledger, config: ContractConfig, created: seq<H256>, nullified: seq<H256>): ZkVmState {
    ZkVmState(BuildWitness(merge, ledger.notes, FilterKeys(created, false)),
              BuildWitness(merge, ledger.nullified, FilterKeys(nullified, true)),
              config, Resized(ledger.roots))
  }

  /** The position of a contract's first blob. */
  function PositionOf(blobs: seq<Blob>, contractName: string): (r: Option<nat>)
    ensures r.Some? ==> IsFirst(blobs, contractName, r.value)
    ensures r.None? ==> forall b <- blobs :: b.contractName != contractName
  {
    if blobs == [] then None
    else if blobs[0].contractName == contractName then Some(0)
    else
      match PositionOf(blobs[1..], contractName)
      case None => None
      case Some(i) => Some(i + 1)
  }

  predicate IsFirst(blobs: seq<Blob>, contractName: string, i: nat) {
    i < |blobs| && blobs[i].contractName == contractName && forall j | 0 <= j < i :: blobs[j].contractName != contractName
  }

  /** The inclusion blob must be a callee, refer to a root in the window and repeat the transaction's
      nullifiers; besides it there may be at most one callee, of the token contract. */
  function CheckNoirBlobs(config: ContractConfig, roots: seq<Fingerprint>, calldata: Calldata, callees: seq<Blob>)
    : Result<(), string>
  {
    var utxoBlob := FindBlob(calldata.blobs, config.utxoName);
    if utxoBlob.None? then Err("hyli_utxo_noir blob not provided in calldata")
    else
      var inclusion := PositionOf(callees, config.smtInclName);
      if inclusion.None? then Err("hyli_smt_incl_proof_noir callee blob not provided in calldata")
      else
        var others := Without(callees, inclusion.value);
        var structured := DecodeStructured(callees[inclusion.value].data);
        var payload := if structured.Some? then DecodeVec(structured.value.parameters) else None;
        if payload.None? then Err("failed to parse hyli_smt_incl_proof blob as structured blob")
        else
          var smt :- ParseSmtInclBlob(payload.value);
          if smt.notesRoot !in roots then Err("smt inclusion proof blob does not match notes root")
          else
            var utxo :- ParseUtxoBlob(utxoBlob.value.data);
            if utxo.nullified[0] != smt.nullifier0 then Err("nullifier 0 does not match")
            else if utxo.nullified[1] != smt.nullifier1 then Err("nullifier 1 does not match")
            else CheckTokenCallees(config, others)
  }

  function CheckTokenCallees(config: ContractConfig, callees: seq<Blob>): Result<(), string> {
    match PositionOf(callees, config.smtName)
    case None =>
      if callees == [] then Ok(()) else Err("callee set mismatch")
    case Some(i) =>
      var rest := Without(callees, i);
      if PositionOf(rest, config.smtName).Some? then Err("multiple withdraw callees")
      else if rest == [] then Ok(()) else Err("callee set mismatch")
  }

  /** Besides the inclusion blob there may be one blob of the token contract, and nothing else. */
  lemma TokenCalleesIff(config: ContractConfig, callees: seq<Blob>)
    ensures CheckTokenCallees(config, callees).Ok?
       <==> callees == [] || (|callees| == 1 && callees[0].contractName == config.smtName)
  {
    if |callees| == 1 {
      assert callees[0] in callees;
    }
  }

  /** An inclusion blob that carries a root of the window and the two nullifiers of the UTXO blob. */
  predicate Includes(inclusion: Blob, utxo: Blob, roots: seq<Fingerprint>) {
    var structured := DecodeStructured(inclusion.data);
    && structured.Some? && DecodeVec(structured.value.parameters).Some?
    && var payload := DecodeVec(structured.value.parameters).value;
       && |payload| == 96 && |utxo.data| == 128
       && payload[..32] == utxo.data[64..96] && payload[32..64] == utxo.data[96..] && payload[64..72] in roots
  }

  lemma ChecksOfFirst(config: ContractConfig, roots: seq<Fingerprint>, calldata: Calldata, callees: seq<Blob>, utxo: Blob, i: nat)
    requires FindBlob(calldata.blobs, config.utxoName) == Some(utxo) && PositionOf(callees, config.smtInclName) == Some(i)
    ensures CheckNoirBlobs(config, roots, calldata, callees).Ok?
       <==> Includes(callees[i], utxo, roots) && CheckTokenCallees(config, Without(callees, i)).Ok?
  {
  }

  lemma OthersThan(callees: seq<Blob>, i: nat, config: ContractConfig)
    requires i < |callees|
    ensures CheckTokenCallees(config, Without(callees, i)).Ok?
       <==> |callees| == 1 || (|callees| == 2 && callees[1 - i].contractName == config.smtName)
  {
    TokenCalleesIff(config, Without(callees, i));
  }

  lemma FirstIsUnique(blobs: seq<Blob>, contractName: string, i: nat)
    requires IsFirst(blobs, contractName, i)
    ensures PositionOf(blobs, contractName) == Some(i)
  {
    var found := PositionOf(blobs, contractName);
    assert blobs[i] in blobs;
    assert found.Some? && !(found.value < i) && !(i < found.value);
  }

  /** `u` is the first UTXO blob, `i` the first callee of the inclusion contract, which matches it, and the only other
      callee, if there is one, belongs to the token contract. */
  predicate Matches(config: ContractConfig, roots: seq<Fingerprint>, calldata: Calldata, callees: seq<Blob>, u: nat, i: nat) {
    && IsFirst(calldata.blobs, config.utxoName, u) && IsFirst(callees, config.smtInclName, i)
    && Includes(callees[i], calldata.blobs[u], roots)
    && (|callees| == 1 || (|callees| == 2 && callees[1 - i].contractName == config.smtName))
  }

  lemma MatchesPass(config: ContractConfig, roots: seq<Fingerprint>, calldata: Calldata, callees: seq<Blob>, u: nat, i: nat)
    requires IsFirst(calldata.blobs, config.utxoName, u) && IsFirst(callees, config.smtInclName, i)
    ensures CheckNoirBlobs(config, roots, calldata, callees).Ok? <==> Matches(config, roots, calldata, callees, u, i)
  {
    FirstFound(calldata.blobs, config.utxoName);
    FirstIsUnique(calldata.blobs, config.utxoName, u);
    FirstIsUnique(callees, config.smtInclName, i);
    ChecksOfFirst(config, roots, calldata, callees, calldata.blobs[u], i);
    OthersThan(callees, i, config);
  }

  lemma PassedHasBoth(config: ContractConfig, roots: seq<Fingerprint>, calldata: Calldata, callees: seq<Blob>)
    returns (u: nat, i: nat)
    requires CheckNoirBlobs(config, roots, calldata, callees).Ok?
    ensures IsFirst(calldata.blobs, config.utxoName, u) && IsFirst(callees, config.smtInclName, i)
  {
    FirstFound(calldata.blobs, config.utxoName);
    u, i := PositionOf(calldata.blobs, config.utxoName).value, PositionOf(callees, config.smtInclName).value;
  }

  /** The checks pass exactly when there are such a UTXO blob and such a callee. */
  lemma ChecksPassIff(config: ContractConfig, roots: seq<Fingerprint>, calldata: Calldata, callees: seq<Blob>)
    ensures CheckNoirBlobs(config, roots, calldata, callees).Ok?
       <==> exists u: nat, i: nat :: Matches(config, roots, calldata, callees, u, i)
  {
    if CheckNoirBlobs(config, roots, calldata, callees).Ok? {
      var u, i := PassedHasBoth(config, roots, calldata, callees);
      MatchesPass(config, roots, calldata, callees, u, i);
    }
    forall u: nat, i: nat | Matches(config, roots, calldata, callees, u, i)
      ensures CheckNoirBlobs(config, roots, calldata, callees).Ok?
    {
      MatchesPass(config, roots, calldata, callees, u, i);
    }
  }

  lemma {:induction false} FirstFound(blobs: seq<Blob>, contractName: string)
    ensures FindBlob(blobs, contractName)
         == var i := PositionOf(blobs, contractName); if i.Some? then Some(blobs[i.value]) else None
  {
    if blobs != [] && blobs[0].contractName != contractName {
      FirstFound(blobs[1..], contractName);
    }
  }

  /** Leaf `i` takes commitment `i`; the leaf's key is not looked at. */
  function SetValues(values: seq<WitnessLeaf>, commitments: seq<H256>): (r: seq<WitnessLeaf>)
    requires |values| == |commitments|
    ensures |r| == |values|
  {
    seq(|values|, i requires 0 <= i < |values| => values[i].(value := commitments[i]))
  }

  function ApplyAction(state: ZkVmState, calldata: Calldata): Result<ZkVmState, string> {
    var blob := FindBlob(calldata.blobs, state.config.utxoName);
    if blob.None? then Err("hyli_utxo blob not found in calldata")
    else
      var utxo :- ParseUtxoBlob(blob.value.data);
      var created, nullified := FilterKeys(utxo.created, false), FilterKeys(utxo.nullified, true);
      if |state.created.values| != |created| then Err("notes witness entries do not match")
      else if |state.nullified.values| != |nullified| then Err("nullified witness entries do not match")
      else
        Ok(state.(created := state.created.(values := SetValues(state.created.values, created)),
                  nullified := state.nullified.(values := SetValues(state.nullified.values, nullified))))
  }

  /** One transaction on the witness state; on an error the state stays as it was. */
  function Execute(state: ZkVmState, calldata: Calldata): Result<ZkVmState, string> {
    var callees :- ParseCalldata(calldata);
    if !AllZero(state.created) || !AllZero(state.nullified) then Err("witness values must all be zero")
    else
      var _ :- CheckNoirBlobs(state.config, state.roots, calldata, callees);
      ApplyAction(state, calldata)
  }

  /** An error stands for the panic of the commitment computation. */
  function Commit(merge: Merge, state: ZkVmState): Result<seq<byte>, string> {
    var notesRoot :- ComputeRoot(merge, state.created);
    var nullifiedRoot :- ComputeRoot(merge, state.nullified);
    Ok(Snapshot(notesRoot, nullifiedRoot))
  }

  /** A commitment to two roots, the notes' first: there is one exactly when both are. */
  predicate CommitsTo(commitment: Result<seq<byte>, string>, notes: Result<H256, string>, nullified: Result<H256, string>) {
    && (commitment.Ok? <==> notes.Ok? && nullified.Ok?)
    && (commitment.Ok? ==> |commitment.value| == 64 && commitment.value[..32] == notes.value && commitment.value[32..] == nullified.value)
  }

  lemma CommitIsBothRoots(merge: Merge, state: ZkVmState)
    ensures CommitsTo(Commit(merge, state), ComputeRoot(merge, state.created), ComputeRoot(merge, state.nullified))
  {
  }

  /** The blank state that follows the last one commits to two empty trees. */
  lemma BlankCommitsToEmpty(merge: Merge, config: ContractConfig)
    requires KeepsEmpty(merge)
    ensures Commit(merge, NewState(config)) == Ok(Commitment(merge, EMPTY_LEDGER))
    ensures NewState(config).config == config && NewState(config).roots == Resized(EMPTY_LEDGER.roots)
  {
    EmptyNode(merge, []);
  }

  /** The state of the next transaction, and those of the later ones in reverse. */
  datatype Batch = Batch(current: ZkVmState, remaining: seq<ZkVmState>)

  function Extend(batch: Batch, next: Batch): Batch {
    batch.(remaining := next.remaining + [next.current] + batch.remaining)
  }

  function Advance(batch: Batch): Batch {
    if batch.remaining == [] then batch.(current := NewState(batch.current.config))
    else
      var last := |batch.remaining| - 1;
      Batch(batch.remaining[last], batch.remaining[..last])
  }

  class HyliUtxoZkVmBatch {
    const merge: Merge
    var current: ZkVmState
    var remaining: seq<ZkVmState>

    ghost function View(): Batch
      reads this
    {
      Batch(current, remaining)
    }

    constructor (merge: Merge, state: ZkVmState)
      ensures this.merge == merge && View() == Batch(state, [])
    {
      this.merge := merge;
      current, remaining := state, [];
    }

    method ExtendWith(next: Batch)
      modifies this
      ensures View() == Extend(old(View()), next)
    {
      var merged := next.remaining;
      merged := merged + [next.current];
      merged := merged + remaining;
      remaining := merged;
    }

    method AdvanceStep()
      modifies this
      ensures View() == Advance(old(View()))
    {
      if remaining != [] {
        var last := |remaining| - 1;
        current, remaining := remaining[last], remaining[..last];
      } else {
        current := NewState(current.config);
      }
    }

    /** Writes the transaction's commitments over the witness leaves, position by position. */
    method ApplyActionInPlace(calldata: Calldata) returns (r: Result<(), string>)
      modifies this
      ensures var applied := ApplyAction(old(current), calldata);
              && (r.Ok? <==> applied.Ok?)
              && View() == old(View()).(current := if applied.Ok? then applied.value else old(current))
    {
      var blob := FindBlob(calldata.blobs, current.config.utxoName);
      if blob.None? {
        return Err("hyli_utxo blob not found in calldata");
      }
      var parsed := ParseUtxoBlob(blob.value.data);
      if parsed.Err? {
        return Err(parsed.error);
      }
      var created, nullified := FilterKeys(parsed.value.created, false), FilterKeys(parsed.value.nullified, true);
      if |current.created.values| != |created| {
        return Err("notes witness entries do not match");
      }
      if |current.nullified.values| != |nullified| {
        return Err("nullified witness entries do not match");
      }
      var createdLeaves := OverwriteValues(current.created.values, created);
      var nullifiedLeaves := OverwriteValues(current.nullified.values, nullified);
      current := current.(created := current.created.(values := createdLeaves),
                          nullified := current.nullified.(values := nullifiedLeaves));
      return Ok(());
    }

    static method OverwriteValues(leaves: seq<WitnessLeaf>, commitments: seq<H256>) returns (r: seq<WitnessLeaf>)
      requires |leaves| == |commitments|
      ensures r == SetValues(leaves, commitments)
    {
      r := leaves;
      for i := 0 to |commitments|
        invariant |r| == |leaves|
        invariant forall j | 0 <= j < i :: r[j] == leaves[j].(value := commitments[j])
        invariant forall j | i <= j < |leaves| :: r[j] == leaves[j]
      {
        r := r[i := r[i].(value := commitments[i])];
      }
    }

    method ExecuteInPlace(calldata: Calldata) returns (r: Result<(), string>)
      modifies this
      ensures var executed := Execute(old(current), calldata);
              && (r.Ok? <==> executed.Ok?)
              && View() == old(View()).(current := if executed.Ok? then executed.value else old(current))
    {
      var callees := ParseCalldata(calldata);
      if callees.Err? {
        return Err(callees.error);
      }
      if !AllZero(current.created) || !AllZero(current.nullified) {
        return Err("witness values must all be zero");
      }
      var checked := CheckNoirBlobs(current.config, current.roots, calldata, callees.value);
      if checked.Err? {
        return Err(checked.error);
      }
      r := ApplyActionInPlace(calldata);
    }

    /** The commitment of the transaction just executed; then the next transaction's state moves up. */
    method OnSuccess() returns (commitment: Result<seq<byte>, string>)
      modifies this
      ensures commitment == Commit(merge, old(current))
      ensures CommitsTo(commitment, ComputeRoot(merge, old(current).created), ComputeRoot(merge, old(current).nullified))
      ensures View() == Advance(old(View()))
    {
      commitment := Commit(merge, current);
      CommitIsBothRoots(merge, current);
      AdvanceStep();
    }
  }

  /** The states of a batch in the order in which it runs them. */
  function RunOrder(batch: Batch): seq<ZkVmState> {
    [batch.current] + Reversed(batch.remaining)
  }

  /** Extending a batch appends the other batch's run order. */
  lemma ExtendAppends(batch: Batch, next: Batch)
    ensures RunOrder(Extend(batch, next)) == RunOrder(batch) + RunOrder(next)
  {
  }

  lemma ExtendAssociative(a: Batch, b: Batch, c: Batch)
    ensures Extend(Extend(a, b), c) == Extend(a, Extend(b, c))
  {
  }

  /** Advancing consumes the first state of the run order; past the last one a blank state follows. */
  lemma AdvanceConsumesHead(batch: Batch)
    ensures RunOrder(Advance(batch))
         == if |RunOrder(batch)| > 1 then RunOrder(batch)[1..] else [NewState(batch.current.config)]
  {
    if batch.remaining != [] {
      var last := |batch.remaining| - 1;
      assert Reversed(batch.remaining)[0] == batch.remaining[last];
      assert Reversed(batch.remaining)[1..] == Reversed(batch.remaining[..last]);
    }
  }

  /** What the host records for one transaction of a batch. */
  datatype Step = Step(before: Result<seq<byte>, string>, accepted: bool, after: Result<seq<byte>, string>)

  /** The host runs the batch over the transactions: a rejected one is reverted, an accepted one is
      committed and the batch moves on. */
  function HostRun(merge: Merge, batch: Batch, txs: seq<Calldata>): (steps: seq<Step>)
    ensures |steps| == |txs|
    decreases |txs|
  {
    if txs == [] then []
    else
      var before := Commit(merge, batch.current);
      match Execute(batch.current, txs[0])
      case Err(_) => [Step(before, false, before)] + HostRun(merge, batch, txs[1..])
      case Ok(state) =>
        [Step(before, true, Commit(merge, state))] + HostRun(merge, Advance(batch.(current := state)), txs[1..])
  }
}
