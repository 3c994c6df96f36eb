/** The zkVM batch refines the full state: what the batch commits to, step by step, is what the
    executor commits to. */
module Refinement {
  import opened Wrappers
  import opened Sequences
  import opened Bytes
  import opened SparseMerkle
  import opened MultiProof
  import opened Blobs
  import opened UtxoState
  import opened ZkVm
  import opened Executor

  // ---- one witness ----

  lemma KeysOfLeaves(leaves: map<H256, H256>, keys: seq<H256>)
    ensures Keys(LeavesFor(leaves, keys)) == keys
  {
  }

  lemma KeysOfSetValues(values: seq<WitnessLeaf>, commitments: seq<H256>)
    requires |values| == |commitments|
    ensures Keys(SetValues(values, commitments)) == Keys(values)
  {
  }

  /** A witness as read from the tree gives the tree's root. */
  lemma WitnessGivesRoot(merge: Merge, leaves: map<H256, H256>, keys: seq<H256>)
    requires Distinct(keys)
    ensures ComputeRoot(merge, BuildWitness(merge, leaves, keys)) == Ok(Root(merge, leaves))
  {
    if keys != [] {
      var values := LeavesFor(leaves, keys);
      KeysOfLeaves(leaves, keys);
      ProofFoldsToNode(merge, leaves, [], values, leaves);
    }
  }

  /** Storing each key of `values` under itself, and nothing else, on top of `leaves` is a rewrite by those leaves. */
  lemma UnionRewrites(leaves: map<H256, H256>, values: seq<WitnessLeaf>, all: map<H256, H256>)
    requires Fresh(leaves, Keys(values)) && IsUnion(leaves, Keys(values), all)
    ensures Rewrites(leaves, SetValues(values, Keys(values)), all, [])
  {
    var rewritten := SetValues(values, Keys(values));
    KeysOfSetValues(values, Keys(values));
    forall e <- rewritten
      ensures LeafValue(all, e.key) == e.value
    {
      var i :| 0 <= i < |rewritten| && rewritten[i] == e;
      assert e.key == Keys(values)[i] == e.value;
    }
  }

  /** Once its leaves carry the new commitments, it gives the root of the tree with those leaves added. */
  lemma UpdatedWitnessGivesRoot(merge: Merge, leaves: map<H256, H256>, keys: seq<H256>, all: map<H256, H256>)
    requires Fresh(leaves, keys) && IsUnion(leaves, keys, all)
    ensures var w := BuildWitness(merge, leaves, keys);
            |w.values| == |keys| &&
            ComputeRoot(merge, w.(values := SetValues(w.values, keys))) == Ok(Root(merge, all))
  {
    if keys == [] {
      assert all == leaves;
    } else {
      var values := LeavesFor(leaves, keys);
      KeysOfLeaves(leaves, keys);
      KeysOfSetValues(values, keys);
      UnionRewrites(leaves, values, all);
      ProofFoldsToNode(merge, leaves, [], SetValues(values, keys), all);
    }
  }

  lemma WitnessZeroIff(merge: Merge, leaves: map<H256, H256>, keys: seq<H256>)
    requires forall k <- leaves :: leaves[k] != ZERO_HASH
    ensures AllZero(BuildWitness(merge, leaves, keys)) <==> forall k <- keys :: k !in leaves
  {
    if keys != [] {
      var values := LeavesFor(leaves, keys);
      forall i | 0 <= i < |keys|
        ensures values[i].value == ZERO_HASH <==> keys[i] !in leaves
      {
      }
      if AllZero(Witness(values, CurrentRootHash(ZERO_HASH))) {
        forall k <- keys
          ensures k !in leaves
        {
          var i :| 0 <= i < |keys| && keys[i] == k;
          assert values[i] in values;
        }
      }
    }
  }

  /** Accept/reject agreement: the full state accepts a payload exactly when its witness is all zero and
      neither its nullifiers nor its notes repeat. */
  lemma WitnessAgrees(merge: Merge, config: ContractConfig, ledger: Ledger, payload: UtxoPayload)
    requires WellFormed(ledger)
    ensures var w := ToZkVmState(merge, ledger, config, payload.created, payload.nullified);
            ApplyCommitments(merge, ledger, payload).1
            <==> AllZero(w.created) && AllZero(w.nullified) && Distinct(Spends(payload)) && Distinct(Creates(payload))
  {
    AppliedIff(merge, ledger, payload);
    WitnessZeroIff(merge, ledger.notes, Creates(payload));
    WitnessZeroIff(merge, ledger.nullified, Spends(payload));
  }

  lemma RepeatedKeysDoNotCompute(merge: Merge, w: Witness)
    requires w.proof.Opening? && !Distinct(Keys(w.values))
    ensures ComputeRoot(merge, w).Err?
  {
    if w.values != [] && ComputeRoot(merge, w).Ok? {
      OpeningDistinct(merge, w.proof.tree, [], w.values);
    }
  }

  /** A witness read from the tree computes a root exactly when its keys differ, whatever values it has got since. */
  lemma WitnessComputesIff(merge: Merge, leaves: map<H256, H256>, keys: seq<H256>, values: seq<H256>)
    requires |values| == |keys|
    ensures ComputeRoot(merge, BuildWitness(merge, leaves, keys)).Ok? <==> Distinct(keys)
    ensures var w := BuildWitness(merge, leaves, keys);
            |w.values| == |keys| && (!Distinct(keys) ==> ComputeRoot(merge, w.(values := SetValues(w.values, values))).Err?)
  {
    var w := BuildWitness(merge, leaves, keys);
    if Distinct(keys) {
      WitnessGivesRoot(merge, leaves, keys);
    } else {
      KeysOfLeaves(leaves, keys);
      KeysOfSetValues(w.values, values);
      RepeatedKeysDoNotCompute(merge, w);
      RepeatedKeysDoNotCompute(merge, w.(values := SetValues(w.values, values)));
    }
  }

  lemma WitnessCommitsIff(merge: Merge, config: ContractConfig, ledger: Ledger, payload: UtxoPayload)
    ensures Commit(merge, WitnessState(merge, config, ledger, payload)).Ok?
       <==> Distinct(Spends(payload)) && Distinct(Creates(payload))
  {
    WitnessComputesIff(merge, ledger.notes, Creates(payload), Creates(payload));
    WitnessComputesIff(merge, ledger.nullified, Spends(payload), Spends(payload));
  }

  /** The blob checks of the contract pass with the window of the full state. */
  predicate Checked(config: ContractConfig, ledger: Ledger, tx: Calldata) {
    ParseCalldata(tx).Ok? && CheckNoirBlobs(config, Resized(ledger.roots), tx, ParseCalldata(tx).value).Ok?
  }

  /** A transaction runs on a witness read from the full state exactly when it has the numbers of real notes and
      nullifiers that the witness was read for, and the full state holds none of the witness's keys. */
  lemma WitnessExecutesIff(merge: Merge, config: ContractConfig, ledger: Ledger, other: UtxoPayload, tx: Calldata, payload: UtxoPayload)
    requires WellFormed(ledger) && PayloadOf(config, tx) == Ok(payload) && Checked(config, ledger, tx)
    ensures Execute(WitnessState(merge, config, ledger, other), tx).Ok?
       <==> && |Creates(other)| == |Creates(payload)| && |Spends(other)| == |Spends(payload)|
            && (forall k <- Creates(other) :: k !in ledger.notes) && (forall k <- Spends(other) :: k !in ledger.nullified)
  {
    var state := WitnessState(merge, config, ledger, other);
    WitnessZeroIff(merge, ledger.notes, Creates(other));
    WitnessZeroIff(merge, ledger.nullified, Spends(other));
    assert |state.created.values| == |Creates(other)| && |state.nullified.values| == |Spends(other)|;
  }

  /** Agreement about what the contract does: a transaction whose blob checks pass runs on its own witness, and the
      witness commits, exactly when the full state records its payload. */
  lemma ExecutesIffApplied(merge: Merge, config: ContractConfig, ledger: Ledger, tx: Calldata, payload: UtxoPayload)
    requires WellFormed(ledger) && PayloadOf(config, tx) == Ok(payload) && Checked(config, ledger, tx)
    ensures var state := WitnessState(merge, config, ledger, payload);
            Execute(state, tx).Ok? && Commit(merge, state).Ok? <==> ApplyCommitments(merge, ledger, payload).1
  {
    WitnessExecutesIff(merge, config, ledger, payload, tx, payload);
    WitnessCommitsIff(merge, config, ledger, payload);
    AppliedIff(merge, ledger, payload);
  }

  /** Neither half is enough: with new keys, one of them repeated, the transaction runs, but the state commits neither
      before nor afterwards, and the full state rejects the payload. */
  lemma RepeatedKeyExecutes(merge: Merge, config: ContractConfig, ledger: Ledger, tx: Calldata, payload: UtxoPayload)
    requires WellFormed(ledger) && PayloadOf(config, tx) == Ok(payload) && Checked(config, ledger, tx)
    requires (forall k <- Creates(payload) :: k !in ledger.notes) && (forall k <- Spends(payload) :: k !in ledger.nullified)
    requires !Distinct(Spends(payload)) || !Distinct(Creates(payload))
    ensures var state := WitnessState(merge, config, ledger, payload);
            && Execute(state, tx).Ok? && !ApplyCommitments(merge, ledger, payload).1
            && Commit(merge, state).Err? && Commit(merge, Execute(state, tx).value).Err?
  {
    var state := WitnessState(merge, config, ledger, payload);
    WitnessExecutesIff(merge, config, ledger, payload, tx, payload);
    WitnessCommitsIff(merge, config, ledger, payload);
    WitnessComputesIff(merge, ledger.notes, Creates(payload), Creates(payload));
    WitnessComputesIff(merge, ledger.nullified, Spends(payload), Spends(payload));
    AppliedIff(merge, ledger, payload);
    ExecuteOverwritesWitness(state, tx, payload);
  }

  // ---- one transaction ----

  /** The executor applies the call, and the contract's own checks on the blobs pass. */
  predicate Accepts(merge: Merge, config: ContractConfig, ledger: Ledger, tx: Calldata) {
    && Handle(merge, config, ledger, tx).1.Applied?
    && ParseCalldata(tx).Ok?
    && CheckNoirBlobs(config, Resized(ledger.roots), tx, ParseCalldata(tx).value).Ok?
  }

  function WitnessState(merge: Merge, config: ContractConfig, ledger: Ledger, payload: UtxoPayload): ZkVmState {
    ToZkVmState(merge, ledger, config, payload.created, payload.nullified)
  }

  lemma AcceptedPayload(merge: Merge, config: ContractConfig, ledger: Ledger, tx: Calldata)
    requires Handle(merge, config, ledger, tx).1.Applied?
    ensures var payload := Handle(merge, config, ledger, tx).1.payload;
            && PayloadOf(config, tx) == Ok(payload)
            && ApplyCommitments(merge, ledger, payload) == (Handle(merge, config, ledger, tx).0, true)
            && Metadata(merge, config, ledger, tx) == Ok(Batch(WitnessState(merge, config, ledger, payload), []))
  {
  }

  lemma ExecuteOverwritesWitness(state: ZkVmState, tx: Calldata, payload: UtxoPayload)
    requires PayloadOf(state.config, tx) == Ok(payload)
    requires ParseCalldata(tx).Ok? && CheckNoirBlobs(state.config, state.roots, tx, ParseCalldata(tx).value).Ok?
    requires AllZero(state.created) && AllZero(state.nullified)
    requires |state.created.values| == |Creates(payload)| && |state.nullified.values| == |Spends(payload)|
    ensures Execute(state, tx)
         == Ok(state.(created := state.created.(values := SetValues(state.created.values, Creates(payload))),
                      nullified := state.nullified.(values := SetValues(state.nullified.values, Spends(payload)))))
  {
  }

  /** One step of the refinement: the witness state commits to the full state before the transaction,
      executes it, and then commits to the full state after it. */
  lemma StepRefines(merge: Merge, config: ContractConfig, ledger: Ledger, tx: Calldata)
    requires WellFormed(ledger)
    requires Accepts(merge, config, ledger, tx)
    ensures Metadata(merge, config, ledger, tx).Ok?
    ensures var shadow, after := Metadata(merge, config, ledger, tx).value.current, Handle(merge, config, ledger, tx).0;
            && Commit(merge, shadow) == Ok(Commitment(merge, ledger))
            && Execute(shadow, tx).Ok?
            && Commit(merge, Execute(shadow, tx).value) == Ok(Commitment(merge, after))
  {
    AcceptedPayload(merge, config, ledger, tx);
    var payload := Handle(merge, config, ledger, tx).1.payload;
    var shadow := WitnessState(merge, config, ledger, payload);
    var after := Handle(merge, config, ledger, tx).0;
    AppliedIff(merge, ledger, payload);
    AppliedStores(merge, ledger, payload);
    WitnessAgrees(merge, config, ledger, payload);
    WitnessGivesRoot(merge, ledger.notes, Creates(payload));
    WitnessGivesRoot(merge, ledger.nullified, Spends(payload));
    UpdatedWitnessGivesRoot(merge, ledger.notes, Creates(payload), after.notes);
    UpdatedWitnessGivesRoot(merge, ledger.nullified, Spends(payload), after.nullified);
    ExecuteOverwritesWitness(shadow, tx, payload);
  }

  // ---- whole runs ----

  predicate AllAccepted(merge: Merge, config: ContractConfig, ledger: Ledger, txs: seq<Calldata>)
    decreases |txs|
  {
    txs != [] ==>
      && Accepts(merge, config, ledger, txs[0])
      && AllAccepted(merge, config, Handle(merge, config, ledger, txs[0]).0, txs[1..])
  }

  /** Merges the metadata of one transaction after the other into a batch while the executor moves on. */
  function Collect(merge: Merge, config: ContractConfig, ledger: Ledger, batch: Batch, txs: seq<Calldata>): Batch
    decreases |txs|
  {
    if txs == [] then batch
    else
      var metadata := Metadata(merge, config, ledger, txs[0]);
      var extended := if metadata.Ok? then Extend(batch, metadata.value) else batch;
      Collect(merge, config, Handle(merge, config, ledger, txs[0]).0, extended, txs[1..])
  }

  /** The witness states of the transactions of an accepted run. */
  function Witnesses(merge: Merge, config: ContractConfig, ledger: Ledger, txs: seq<Calldata>): (states: seq<ZkVmState>)
    requires WellFormed(ledger)
    requires AllAccepted(merge, config, ledger, txs)
    ensures |states| == |txs|
    decreases |txs|
  {
    if txs == [] then []
    else
      StepRefines(merge, config, ledger, txs[0]);
      HandleKeepsLedger(merge, config, ledger, txs[0]);
      [Metadata(merge, config, ledger, txs[0]).value.current]
      + Witnesses(merge, config, Handle(merge, config, ledger, txs[0]).0, txs[1..])
  }

  /** What the host should record: every transaction accepted, with the executor's own commitments. */
  function ExecutorSteps(merge: Merge, config: ContractConfig, ledger: Ledger, txs: seq<Calldata>): (steps: seq<Step>)
    ensures |steps| == |txs|
    decreases |txs|
  {
    if txs == [] then []
    else
      var after := Handle(merge, config, ledger, txs[0]).0;
      [Step(Ok(Commitment(merge, ledger)), true, Ok(Commitment(merge, after)))]
      + ExecutorSteps(merge, config, after, txs[1..])
  }

  /** An accepted run starts with the witness read before its first call. */
  lemma FirstWitness(merge: Merge, config: ContractConfig, ledger: Ledger, txs: seq<Calldata>)
    returns (after: Ledger, first: ZkVmState)
    requires txs != [] && WellFormed(ledger) && AllAccepted(merge, config, ledger, txs)
    ensures after == Handle(merge, config, ledger, txs[0]).0 && Metadata(merge, config, ledger, txs[0]) == Ok(Batch(first, []))
    ensures WellFormed(after) && AllAccepted(merge, config, after, txs[1..]) && Execute(first, txs[0]).Ok?
    ensures Witnesses(merge, config, ledger, txs) == [first] + Witnesses(merge, config, after, txs[1..])
  {
    StepRefines(merge, config, ledger, txs[0]);
    HandleKeepsLedger(merge, config, ledger, txs[0]);
    after := Handle(merge, config, ledger, txs[0]).0;
    first := Metadata(merge, config, ledger, txs[0]).value.current;
  }

  lemma ExtendBySingle(batch: Batch, single: Batch, later: seq<ZkVmState>)
    requires single.remaining == []
    ensures RunOrder(Extend(batch, single)) + later == RunOrder(batch) + ([single.current] + later)
  {
    ExtendAppends(batch, single);
    assert RunOrder(single) == [single.current];
  }

  lemma {:induction false} CollectOrder(merge: Merge, config: ContractConfig, ledger: Ledger, batch: Batch, txs: seq<Calldata>)
    requires WellFormed(ledger)
    requires AllAccepted(merge, config, ledger, txs)
    ensures RunOrder(Collect(merge, config, ledger, batch, txs))
         == RunOrder(batch) + Witnesses(merge, config, ledger, txs)
    decreases |txs|
  {
    if txs != [] {
      var after, first := FirstWitness(merge, config, ledger, txs);
      CollectOrder(merge, config, after, Extend(batch, Batch(first, [])), txs[1..]);
      ExtendBySingle(batch, Batch(first, []), Witnesses(merge, config, after, txs[1..]));
    }
  }

  lemma AdvancedPrefix(batch: Batch, state: ZkVmState, first: ZkVmState, rest: seq<ZkVmState>)
    requires [first] + rest <= RunOrder(batch)
    ensures batch.current == first && rest <= RunOrder(Advance(batch.(current := state)))
  {
    var executed := batch.(current := state);
    assert batch.current == RunOrder(batch)[0] == first;
    assert RunOrder(executed)[1..] == RunOrder(batch)[1..];
    assert ([first] + rest)[1..] == rest;
    AdvanceConsumesHead(executed);
  }

  lemma HostStep(merge: Merge, config: ContractConfig, ledger: Ledger, batch: Batch, txs: seq<Calldata>)
    requires WellFormed(ledger) && txs != [] && Accepts(merge, config, ledger, txs[0])
    requires Metadata(merge, config, ledger, txs[0]) == Ok(Batch(batch.current, []))
    ensures Execute(batch.current, txs[0]).Ok?
    ensures HostRun(merge, batch, txs)
         == [Step(Ok(Commitment(merge, ledger)), true, Ok(Commitment(merge, Handle(merge, config, ledger, txs[0]).0)))]
            + HostRun(merge, Advance(batch.(current := Execute(batch.current, txs[0]).value)), txs[1..])
  {
    StepRefines(merge, config, ledger, txs[0]);
  }

  lemma {:induction false} HostFollowsExecutor(merge: Merge, config: ContractConfig, ledger: Ledger, batch: Batch, txs: seq<Calldata>)
    requires WellFormed(ledger)
    requires AllAccepted(merge, config, ledger, txs)
    requires Witnesses(merge, config, ledger, txs) <= RunOrder(batch)
    ensures HostRun(merge, batch, txs) == ExecutorSteps(merge, config, ledger, txs)
    decreases |txs|
  {
    if txs != [] {
      var after, first := FirstWitness(merge, config, ledger, txs);
      var state := Execute(first, txs[0]).value;
      AdvancedPrefix(batch, state, first, Witnesses(merge, config, after, txs[1..]));
      HostStep(merge, config, ledger, batch, txs);
      HostFollowsExecutor(merge, config, after, Advance(batch.(current := state)), txs[1..]);
    }
  }

  /** Refinement over whole runs: for any accepted list of transactions, merging their metadata into one batch
      and running it gives, at every transaction, the executor's commitments before and after it. No commitment
      fails to compute. */
  lemma BatchRefinesExecutor(merge: Merge, config: ContractConfig, ledger: Ledger, txs: seq<Calldata>, i: nat)
    requires WellFormed(ledger)
    requires i < |txs| && AllAccepted(merge, config, ledger, txs)
    ensures Metadata(merge, config, ledger, txs[0]).Ok?
    ensures var first := Metadata(merge, config, ledger, txs[0]).value;
            var batch := Collect(merge, config, Handle(merge, config, ledger, txs[0]).0, first, txs[1..]);
            HostRun(merge, batch, txs)[i]
            == Step(Ok(Commitment(merge, Run(merge, config, ledger, txs[..i]))), true,
                    Ok(Commitment(merge, Run(merge, config, ledger, txs[..i + 1]))))
  {
    StepRefines(merge, config, ledger, txs[0]);
    HandleKeepsLedger(merge, config, ledger, txs[0]);
    AcceptedPayload(merge, config, ledger, txs[0]);
    var first := Metadata(merge, config, ledger, txs[0]).value;
    var after := Handle(merge, config, ledger, txs[0]).0;
    CollectOrder(merge, config, after, first, txs[1..]);
    assert RunOrder(first) == [first.current];
    HostFollowsExecutor(merge, config, ledger, Collect(merge, config, after, first, txs[1..]), txs);
    ExecutorStepAt(merge, config, ledger, txs, i);
  }

  lemma RunTail(merge: Merge, config: ContractConfig, ledger: Ledger, txs: seq<Calldata>, i: nat)
    requires 0 < i <= |txs|
    ensures Run(merge, config, ledger, txs[..i]) == Run(merge, config, Handle(merge, config, ledger, txs[0]).0, txs[1..][..i - 1])
  {
    assert txs[..i][0] == txs[0] && txs[..i][1..] == txs[1..][..i - 1];
  }

  lemma {:induction false} ExecutorStepAt(merge: Merge, config: ContractConfig, ledger: Ledger, txs: seq<Calldata>, i: nat)
    requires i < |txs|
    ensures ExecutorSteps(merge, config, ledger, txs)[i]
         == Step(Ok(Commitment(merge, Run(merge, config, ledger, txs[..i]))), true,
                 Ok(Commitment(merge, Run(merge, config, ledger, txs[..i + 1]))))
    decreases i
  {
    var after := Handle(merge, config, ledger, txs[0]).0;
    RunTail(merge, config, ledger, txs, i + 1);
    if i > 0 {
      RunTail(merge, config, ledger, txs, i);
      ExecutorStepAt(merge, config, after, txs[1..], i - 1);
    } else {
      assert txs[..0] == [] && txs[1..][..0] == [];
    }
  }

  // ---- rejected calls ----

  /** The batch after the host has run it over `txs`. */
  function HostAfter(merge: Merge, batch: Batch, txs: seq<Calldata>): Batch
    decreases |txs|
  {
    if txs == [] then batch
    else
      match Execute(batch.current, txs[0])
      case Err(_) => HostAfter(merge, batch, txs[1..])
      case Ok(state) => HostAfter(merge, Advance(batch.(current := state)), txs[1..])
  }

  lemma {:induction false} HostRunSplit(merge: Merge, batch: Batch, txs: seq<Calldata>, later: seq<Calldata>)
    ensures HostRun(merge, batch, txs + later) == HostRun(merge, batch, txs) + HostRun(merge, HostAfter(merge, batch, txs), later)
    decreases |txs|
  {
    if txs == [] {
      assert txs + later == later;
    } else {
      assert (txs + later)[1..] == txs[1..] + later;
      match Execute(batch.current, txs[0])
      case Err(_) => HostRunSplit(merge, batch, txs[1..], later);
      case Ok(state) => HostRunSplit(merge, Advance(batch.(current := state)), txs[1..], later);
    }
  }

  /** The witness states that the calls of any list contribute, applied or not: one each if its payload parses. */
  function Contributed(merge: Merge, config: ContractConfig, ledger: Ledger, txs: seq<Calldata>): seq<ZkVmState>
    decreases |txs|
  {
    if txs == [] then []
    else
      var metadata := Metadata(merge, config, ledger, txs[0]);
      (if metadata.Ok? then [metadata.value.current] else [])
      + Contributed(merge, config, Handle(merge, config, ledger, txs[0]).0, txs[1..])
  }

  lemma {:induction false} CollectContributed(merge: Merge, config: ContractConfig, ledger: Ledger, batch: Batch, txs: seq<Calldata>)
    ensures RunOrder(Collect(merge, config, ledger, batch, txs)) == RunOrder(batch) + Contributed(merge, config, ledger, txs)
    decreases |txs|
  {
    if txs != [] {
      var metadata, after := Metadata(merge, config, ledger, txs[0]), Handle(merge, config, ledger, txs[0]).0;
      if metadata.Ok? {
        CollectContributed(merge, config, after, Extend(batch, metadata.value), txs[1..]);
        ExtendBySingle(batch, metadata.value, Contributed(merge, config, after, txs[1..]));
      } else {
        CollectContributed(merge, config, after, batch, txs[1..]);
      }
    }
  }

  /** Each of the states executes the call of its position. */
  ghost predicate AllExecute(states: seq<ZkVmState>, txs: seq<Calldata>) {
    |states| == |txs| && forall i | 0 <= i < |txs| :: Execute(states[i], txs[i]).Ok?
  }

  lemma {:induction false} WitnessesExecute(merge: Merge, config: ContractConfig, ledger: Ledger, txs: seq<Calldata>)
    requires WellFormed(ledger) && AllAccepted(merge, config, ledger, txs)
    ensures AllExecute(Witnesses(merge, config, ledger, txs), txs)
    decreases |txs|
  {
    if txs != [] {
      var after, first := FirstWitness(merge, config, ledger, txs);
      WitnessesExecute(merge, config, after, txs[1..]);
      ExecuteCons(first, Witnesses(merge, config, after, txs[1..]), txs);
    }
  }

  lemma ExecuteCons(first: ZkVmState, states: seq<ZkVmState>, txs: seq<Calldata>)
    requires txs != [] && Execute(first, txs[0]).Ok? && AllExecute(states, txs[1..])
    ensures AllExecute([first] + states, txs)
  {
    forall i | 0 <= i < |txs|
      ensures Execute(([first] + states)[i], txs[i]).Ok?
    {
      assert i > 0 ==> ([first] + states)[i] == states[i - 1] && txs[i] == txs[1..][i - 1];
    }
  }

  lemma AdvancedOrder(batch: Batch, state: ZkVmState, first: ZkVmState, rest: seq<ZkVmState>)
    requires RunOrder(batch) == [first] + rest && rest != []
    ensures RunOrder(Advance(batch.(current := state))) == rest
  {
    assert RunOrder(batch.(current := state))[1..] == RunOrder(batch)[1..] == rest;
    AdvanceConsumesHead(batch.(current := state));
  }

  /** Running calls that execute on the states at the front of a batch uses up exactly those states. */
  lemma {:induction false} HostUsesUp(merge: Merge, batch: Batch, txs: seq<Calldata>, states: seq<ZkVmState>, later: seq<ZkVmState>)
    requires AllExecute(states, txs)
    requires later != [] && RunOrder(batch) == states + later
    ensures RunOrder(HostAfter(merge, batch, txs)) == later
    decreases |txs|
  {
    if txs == [] {
      assert states + later == later;
    } else {
      ExecuteTail(states, txs);
      var first, rest := states[0], states[1..];
      assert states == [first] + rest;
      Regroup([first], rest, later);
      assert batch.current == RunOrder(batch)[0] == first;
      var state := Execute(first, txs[0]).value;
      AdvancedOrder(batch, state, first, rest + later);
      HostUsesUp(merge, Advance(batch.(current := state)), txs[1..], rest, later);
    }
  }

  lemma ExecuteTail(states: seq<ZkVmState>, txs: seq<Calldata>)
    requires AllExecute(states, txs) && txs != []
    ensures Execute(states[0], txs[0]).Ok? && AllExecute(states[1..], txs[1..])
  {
    forall i | 0 <= i < |txs[1..]|
      ensures Execute(states[1..][i], txs[1..][i]).Ok?
    {
      assert states[1..][i] == states[i + 1] && txs[1..][i] == txs[i + 1];
    }
  }

  lemma ContributedFirst(merge: Merge, config: ContractConfig, ledger: Ledger, txs: seq<Calldata>, later: seq<Calldata>,
                         first: ZkVmState)
    requires txs != [] && Metadata(merge, config, ledger, txs[0]) == Ok(Batch(first, []))
    ensures Contributed(merge, config, ledger, txs + later)
         == [first] + Contributed(merge, config, Handle(merge, config, ledger, txs[0]).0, txs[1..] + later)
  {
    assert (txs + later)[1..] == txs[1..] + later;
  }

  lemma {:induction false} AcceptedContribute(merge: Merge, config: ContractConfig, ledger: Ledger, txs: seq<Calldata>,
                                              later: seq<Calldata>)
    requires WellFormed(ledger) && AllAccepted(merge, config, ledger, txs)
    ensures Contributed(merge, config, ledger, txs + later)
         == Witnesses(merge, config, ledger, txs) + Contributed(merge, config, Run(merge, config, ledger, txs), later)
    decreases |txs|
  {
    if txs == [] {
      assert txs + later == later;
    } else {
      var after, first := FirstWitness(merge, config, ledger, txs);
      var rest := Witnesses(merge, config, after, txs[1..]);
      var last := Contributed(merge, config, Run(merge, config, ledger, txs), later);
      ContributedFirst(merge, config, ledger, txs, later, first);
      AcceptedContribute(merge, config, after, txs[1..], later);
      assert Run(merge, config, ledger, txs) == Run(merge, config, after, txs[1..]);
      Regroup([first], rest, last);
    }
  }

  /** A host that gets accepted calls and then others runs the others on the witness of the first of them. */
  lemma HostReaches(merge: Merge, config: ContractConfig, ledger: Ledger, batch: Batch, txs: seq<Calldata>, calls: seq<Calldata>)
    requires WellFormed(ledger) && AllAccepted(merge, config, ledger, txs)
    requires RunOrder(batch) == Contributed(merge, config, ledger, txs + calls)
    requires Contributed(merge, config, Run(merge, config, ledger, txs), calls) != []
    ensures RunOrder(HostAfter(merge, batch, txs)) == Contributed(merge, config, Run(merge, config, ledger, txs), calls)
    ensures HostRun(merge, batch, txs + calls)
         == ExecutorSteps(merge, config, ledger, txs) + HostRun(merge, HostAfter(merge, batch, txs), calls)
  {
    AcceptedContribute(merge, config, ledger, txs, calls);
    WitnessesExecute(merge, config, ledger, txs);
    HostUsesUp(merge, batch, txs, Witnesses(merge, config, ledger, txs),
               Contributed(merge, config, Run(merge, config, ledger, txs), calls));
    HostFollowsExecutor(merge, config, ledger, batch, txs);
    HostRunSplit(merge, batch, txs, calls);
  }

  /** A list with a rejected call in it: the calls before it run as in the full state; the rejected one leaves the
      batch where it was, so if its payload parsed, the batch goes on with the rejected call's witness before those of
      the later calls; if it did not parse, the later calls stay in step. */
  lemma RejectedCallStalls(merge: Merge, config: ContractConfig, ledger: Ledger, batch: Batch, txs: seq<Calldata>, bad: Calldata,
                           rest: seq<Calldata>)
    requires WellFormed(ledger) && AllAccepted(merge, config, ledger, txs)
    requires RunOrder(batch) == Contributed(merge, config, ledger, txs + ([bad] + rest))
    requires Contributed(merge, config, Run(merge, config, ledger, txs), [bad] + rest) != []
    requires Execute(HostAfter(merge, batch, txs).current, bad).Err?
    ensures var reached := Run(merge, config, ledger, txs);
            var metadata, stalled := Metadata(merge, config, reached, bad), HostAfter(merge, batch, txs + [bad]);
            && RunOrder(stalled) == (if metadata.Ok? then [metadata.value.current] else [])
                                    + Contributed(merge, config, Handle(merge, config, reached, bad).0, rest)
            && HostRun(merge, batch, txs + ([bad] + rest))
               == ExecutorSteps(merge, config, ledger, txs)
                  + ([Step(Commit(merge, stalled.current), false, Commit(merge, stalled.current))] + HostRun(merge, stalled, rest))
  {
    HostReaches(merge, config, ledger, batch, txs, [bad] + rest);
    assert ([bad] + rest)[1..] == rest;
    HostAfterRejected(merge, batch, txs, bad);
  }

  lemma {:induction false} HostAfterRejected(merge: Merge, batch: Batch, txs: seq<Calldata>, bad: Calldata)
    requires Execute(HostAfter(merge, batch, txs).current, bad).Err?
    ensures HostAfter(merge, batch, txs + [bad]) == HostAfter(merge, batch, txs)
    decreases |txs|
  {
    if txs == [] {
      assert txs + [bad] == [bad] && [bad][1..] == [];
    } else {
      assert (txs + [bad])[1..] == txs[1..] + [bad];
      match Execute(batch.current, txs[0])
      case Err(_) => HostAfterRejected(merge, batch, txs[1..], bad);
      case Ok(state) => HostAfterRejected(merge, Advance(batch.(current := state)), txs[1..], bad);
    }
  }

  /** A witness of another call cannot even run one with other numbers of notes or nullifiers. */
  lemma StaleWitnessRejects(merge: Merge, config: ContractConfig, ledger: Ledger, other: UtxoPayload, tx: Calldata, payload: UtxoPayload)
    requires PayloadOf(config, tx) == Ok(payload)
    requires |Creates(other)| != |Creates(payload)| || |Spends(other)| != |Spends(payload)|
    ensures Execute(WitnessState(merge, config, ledger, other), tx).Err?
  {
    var state := WitnessState(merge, config, ledger, other);
    assert |state.created.values| == |Creates(other)| && |state.nullified.values| == |Spends(other)|;
  }

  /** Some key of the payload is recorded already: a double spend, or a note that exists. */
  ghost predicate Repeats(ledger: Ledger, payload: UtxoPayload) {
    (exists k <- Spends(payload) :: k in ledger.nullified) || (exists k <- Creates(payload) :: k in ledger.notes)
  }

  lemma RepeatedNeverExecutes(merge: Merge, config: ContractConfig, ledger: Ledger, payload: UtxoPayload, tx: Calldata)
    requires WellFormed(ledger) && Repeats(ledger, payload)
    ensures Execute(WitnessState(merge, config, ledger, payload), tx).Err?
  {
    WitnessZeroIff(merge, ledger.notes, Creates(payload));
    WitnessZeroIff(merge, ledger.nullified, Spends(payload));
  }

  lemma WitnessCommits(merge: Merge, config: ContractConfig, ledger: Ledger, payload: UtxoPayload)
    requires Distinct(Spends(payload)) && Distinct(Creates(payload))
    ensures Commit(merge, WitnessState(merge, config, ledger, payload)) == Ok(Commitment(merge, ledger))
  {
    WitnessGivesRoot(merge, ledger.notes, Creates(payload));
    WitnessGivesRoot(merge, ledger.nullified, Spends(payload));
  }

  lemma ContributedHead(merge: Merge, config: ContractConfig, ledger: Ledger, txs: seq<Calldata>, payload: UtxoPayload)
    requires txs != [] && PayloadOf(config, txs[0]) == Ok(payload)
    ensures var later := Contributed(merge, config, ledger, txs);
            later != [] && later[0] == WitnessState(merge, config, ledger, payload)
  {
  }

  /** What the host records for `n` calls that are all rejected in one state. */
  function Rejections(n: nat, commitment: seq<byte>): seq<Step> {
    seq(n, _ => Step(Ok(commitment), false, Ok(commitment)))
  }

  lemma {:induction false} HostStuck(merge: Merge, config: ContractConfig, ledger: Ledger, payload: UtxoPayload, batch: Batch,
                                     txs: seq<Calldata>)
    requires WellFormed(ledger) && Repeats(ledger, payload) && Distinct(Spends(payload)) && Distinct(Creates(payload))
    requires RunOrder(batch)[0] == WitnessState(merge, config, ledger, payload)
    ensures HostRun(merge, batch, txs) == Rejections(|txs|, Commitment(merge, ledger))
    decreases |txs|
  {
    if txs != [] {
      RepeatedNeverExecutes(merge, config, ledger, payload, txs[0]);
      WitnessCommits(merge, config, ledger, payload);
      HostStuck(merge, config, ledger, payload, batch, txs[1..]);
    }
  }

  /** A call with different keys of which one is recorded already. */
  ghost predicate IsDoubleSpend(config: ContractConfig, ledger: Ledger, tx: Calldata) {
    var payload := PayloadOf(config, tx);
    payload.Ok? && Repeats(ledger, payload.value) && Distinct(Spends(payload.value)) && Distinct(Creates(payload.value))
  }

  lemma HostReachesDoubleSpend(merge: Merge, config: ContractConfig, ledger: Ledger, batch: Batch, txs: seq<Calldata>,
                               later: seq<Calldata>, reached: Ledger, stuck: Batch)
    requires WellFormed(ledger) && AllAccepted(merge, config, ledger, txs)
    requires RunOrder(batch) == Contributed(merge, config, ledger, txs + later)
    requires reached == Run(merge, config, ledger, txs) && stuck == HostAfter(merge, batch, txs)
    requires later != [] && PayloadOf(config, later[0]).Ok?
    ensures WellFormed(reached)
    ensures RunOrder(stuck)[0] == WitnessState(merge, config, reached, PayloadOf(config, later[0]).value)
    ensures HostRun(merge, batch, txs + later) == ExecutorSteps(merge, config, ledger, txs) + HostRun(merge, stuck, later)
  {
    RunKeepsLedger(merge, config, ledger, txs);
    ContributedHead(merge, config, reached, later, PayloadOf(config, later[0]).value);
    HostReaches(merge, config, ledger, batch, txs, later);
  }

  /** One double spend blocks the rest of its batch: the calls before it run as in the full state; at it and at every
      later call, whatever those are, the host records a rejection and the commitment of the state before it. */
  lemma DoubleSpendBlocksBatch(merge: Merge, config: ContractConfig, ledger: Ledger, batch: Batch, txs: seq<Calldata>,
                               later: seq<Calldata>)
    requires WellFormed(ledger) && AllAccepted(merge, config, ledger, txs)
    requires RunOrder(batch) == Contributed(merge, config, ledger, txs + later)
    requires later != [] && IsDoubleSpend(config, Run(merge, config, ledger, txs), later[0])
    ensures HostRun(merge, batch, txs + later)
         == ExecutorSteps(merge, config, ledger, txs)
            + Rejections(|later|, Commitment(merge, Run(merge, config, ledger, txs)))
  {
    var reached, stuck := Run(merge, config, ledger, txs), HostAfter(merge, batch, txs);
    HostReachesDoubleSpend(merge, config, ledger, batch, txs, later, reached, stuck);
    HostStuck(merge, config, reached, PayloadOf(config, later[0]).value, stuck, later);
  }
}
