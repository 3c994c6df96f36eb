/** The server's executor over the full state: what every call keeps, what a failed one leaves behind, and that nothing
    is spent twice over any run. */
module Executor {
  import opened Wrappers
  import opened Sequences
  import opened Bytes
  import opened SparseMerkle
  import opened Blobs
  import opened UtxoState
  import opened ZkVm

  /** `Ignored` stands for the registration placeholder, whether or not it parses: nothing is applied. */
  datatype HandleResult = Applied(payload: UtxoPayload) | Ignored | Failed(error: string)

  /** Nullifiers first, then created notes, then the new root. Not undone when it fails half-way. */
  function ApplyCommitments(merge: Merge, ledger: Ledger, payload: UtxoPayload): (Ledger, bool) {
    var (nullified, nullifiedOk) := Record(ledger.nullified, payload.nullified, true);
    if !nullifiedOk then (ledger.(nullified := nullified), false)
    else
      var (notes, notesOk) := Record(ledger.notes, payload.created, false);
      var recorded := ledger.(notes := notes, nullified := nullified);
      if !notesOk then (recorded, false)
      else (recorded.(roots := PushRoot(ledger.roots, FingerprintOf(Root(merge, notes)))), true)
  }

  /** The commitments and nullifiers a call carries, if its transaction has a well-formed UTXO blob. */
  function PayloadOf(config: ContractConfig, calldata: Calldata): Result<UtxoPayload, string> {
    match FindBlob(calldata.blobs, config.utxoName)
    case None => Err("state blob not found in calldata")
    case Some(blob) => ParseUtxoBlob(blob.data)
  }

  predicate IsStateAction(blob: Blob) {
    var parsed := DecodeStructured(blob.data);
    parsed.Some? && |parsed.value.parameters| == 1
  }

  function Handle(merge: Merge, config: ContractConfig, ledger: Ledger, calldata: Calldata): (Ledger, HandleResult) {
    if calldata.index >= |calldata.blobs| then (ledger, Failed("state blob not found in calldata"))
    else if !IsStateAction(calldata.blobs[calldata.index]) then (ledger, Ignored)
    else
      var payload := PayloadOf(config, calldata);
      if payload.Err? then (ledger, Failed(payload.error))
      else
        var (after, ok) := ApplyCommitments(merge, ledger, payload.value);
        (after, if ok then Applied(payload.value) else Failed("commitment already recorded"))
  }

  /** The witness batch built from the state before the call is applied. */
  function Metadata(merge: Merge, config: ContractConfig, ledger: Ledger, calldata: Calldata): Result<Batch, string> {
    var payload :- PayloadOf(config, calldata);
    Ok(Batch(ToZkVmState(merge, ledger, config, payload.created, payload.nullified), []))
  }

  class HyliUtxoStateExecutor {
    const state: HyliUtxoState
    const config: ContractConfig

    ghost predicate Valid()
      reads this, state, state.notesTree, state.nullifiedTree
    {
      state.Valid()
    }

    constructor (merge: Merge, config: ContractConfig)
      requires KeepsEmpty(merge)
      ensures Valid() && state.Merge() == merge && this.config == config
      ensures fresh(state) && fresh(state.notesTree) && fresh(state.nullifiedTree)
      ensures state.View() == EMPTY_LEDGER
    {
      state := new HyliUtxoState(merge);
      this.config := config;
    }

    method ApplyInPlace(payload: UtxoPayload) returns (r: Result<(), string>)
      requires Valid()
      modifies state, state.notesTree, state.nullifiedTree
      ensures Valid()
      ensures var (after, ok) := ApplyCommitments(state.Merge(), old(state.View()), payload);
              state.View() == after && (r.Ok? <==> ok)
    {
      if payload.nullified != [] {
        var recorded := state.RecordNullified(payload.nullified);
        if recorded.Err? {
          return recorded;
        }
      }
      if payload.created != [] {
        var recorded := state.RecordCreated(payload.created);
        if recorded.Err? {
          return recorded;
        }
      }
      state.UpdateRoots();
      return Ok(());
    }

    method HandleInPlace(calldata: Calldata) returns (r: HandleResult, before: seq<byte>, after: seq<byte>)
      requires Valid()
      modifies state, state.notesTree, state.nullifiedTree
      ensures Valid()
      ensures var (next, result) := Handle(state.Merge(), config, old(state.View()), calldata);
              && state.View() == next
              && (r.Applied? <==> result.Applied?) && (r.Ignored? <==> result.Ignored?)
              && (r.Applied? ==> r == result)
      ensures before == Commitment(state.Merge(), old(state.View()))
      ensures after == Commitment(state.Merge(), state.View())
      ensures |before| == |after| == 64
      ensures before[..32] == Root(state.Merge(), old(state.View()).notes) && after[..32] == Root(state.Merge(), state.View().notes)
      ensures before[32..] == Root(state.Merge(), old(state.View()).nullified)
      ensures after[32..] == Root(state.Merge(), state.View().nullified)
    {
      before := state.CommitmentBytes();
      r := Failed("state blob not found in calldata");
      if calldata.index < |calldata.blobs| {
        if !IsStateAction(calldata.blobs[calldata.index]) {
          r := Ignored;
        } else {
          var payload := PayloadOf(config, calldata);
          if payload.Err? {
            r := Failed(payload.error);
          } else {
            var applied := ApplyInPlace(payload.value);
            r := if applied.Ok? then Applied(payload.value) else Failed(applied.error);
          }
        }
      }
      after := state.CommitmentBytes();
    }
  }

  // ---- what every call keeps ----

  lemma ApplyKeepsLedger(merge: Merge, ledger: Ledger, payload: UtxoPayload)
    requires WellFormed(ledger)
    ensures var after := ApplyCommitments(merge, ledger, payload).0;
            && WellFormed(after)
            && ledger.notes.Keys <= after.notes.Keys && ledger.nullified.Keys <= after.nullified.Keys
  {
    RecordKeepsLeaves(ledger.nullified, payload.nullified, true);
    RecordKeepsLeaves(ledger.notes, payload.created, false);
  }

  /** Every call, failed ones included, keeps the state well formed and never forgets a note or a nullifier. */
  lemma HandleKeepsLedger(merge: Merge, config: ContractConfig, ledger: Ledger, calldata: Calldata)
    requires WellFormed(ledger)
    ensures var after := Handle(merge, config, ledger, calldata).0;
            && WellFormed(after)
            && ledger.notes.Keys <= after.notes.Keys && ledger.nullified.Keys <= after.nullified.Keys
  {
    var payload := PayloadOf(config, calldata);
    if payload.Ok? {
      ApplyKeepsLedger(merge, ledger, payload.value);
    }
  }

  /** The commitments of a call that count: padding and zero entries are dropped. */
  function Spends(payload: UtxoPayload): seq<H256> {
    FilterKeys(payload.nullified, true)
  }

  function Creates(payload: UtxoPayload): seq<H256> {
    FilterKeys(payload.created, false)
  }

  /** Zero counts for nothing; the padding nullifier counts as a note but not as a nullifier. */
  lemma CountedIff(payload: UtxoPayload, k: H256)
    ensures k in Creates(payload) <==> k in payload.created && k != ZERO_HASH
    ensures k in Spends(payload) <==> k in payload.nullified && k != ZERO_HASH && k != PADDING_NULLIFIER
  {
    FilteredIff(payload.created, false, k);
    FilteredIff(payload.nullified, true, k);
  }

  lemma {:induction false} FilteredIff(keys: seq<H256>, isNullifier: bool, k: H256)
    ensures k in FilterKeys(keys, isNullifier) <==> k in keys && IsReal(k, isNullifier)
  {
    if keys != [] {
      FilteredIff(keys[1..], isNullifier, k);
      assert keys == [keys[0]] + keys[1..];
    }
  }

  /** A call is applied exactly when its nullifiers and its notes are pairwise different and all new. */
  lemma AppliedIff(merge: Merge, ledger: Ledger, payload: UtxoPayload)
    ensures ApplyCommitments(merge, ledger, payload).1
       <==> Fresh(ledger.nullified, Spends(payload)) && Fresh(ledger.notes, Creates(payload))
  {
    RecordSucceedsIff(ledger.nullified, payload.nullified, true);
    RecordSucceedsIff(ledger.notes, payload.created, false);
  }

  /** ... and then the trees hold exactly what they held before plus those keys. */
  lemma AppliedStores(merge: Merge, ledger: Ledger, payload: UtxoPayload)
    requires ApplyCommitments(merge, ledger, payload).1
    ensures var after := ApplyCommitments(merge, ledger, payload).0;
            && IsUnion(ledger.nullified, Spends(payload), after.nullified)
            && IsUnion(ledger.notes, Creates(payload), after.notes)
  {
    RecordSucceedsIff(ledger.nullified, payload.nullified, true);
    RecordSucceedsIff(ledger.notes, payload.created, false);
  }

  /** What becomes of a call: it is applied exactly when the blob it is addressed to carries an action of one byte, the
      first UTXO blob has 128 bytes, and what that blob spends and creates is new; a call whose own blob does not carry an
      action is ignored; only a call with both can change the state. */
  lemma HandleIff(merge: Merge, config: ContractConfig, ledger: Ledger, tx: Calldata)
    ensures var (after, result) := Handle(merge, config, ledger, tx);
            var addressed := tx.index < |tx.blobs| && DecodeStructured(tx.blobs[tx.index].data).Some?
                             && |DecodeStructured(tx.blobs[tx.index].data).value.parameters| == 1;
            && (result.Ignored? <==> tx.index < |tx.blobs| && !addressed)
            && (result.Applied? <==>
                  && addressed && PayloadOf(config, tx).Ok?
                  && Fresh(ledger.nullified, Spends(PayloadOf(config, tx).value))
                  && Fresh(ledger.notes, Creates(PayloadOf(config, tx).value)))
            && (result.Applied? ==> result.payload == PayloadOf(config, tx).value)
            && (!addressed || PayloadOf(config, tx).Err? ==> after == ledger)
  {
    var payload := PayloadOf(config, tx);
    if payload.Ok? {
      AppliedIff(merge, ledger, payload.value);
    }
  }

  /** The payload is read from the first UTXO blob: two notes, then two nullifiers. */
  lemma PayloadReadIff(config: ContractConfig, tx: Calldata, payload: UtxoPayload)
    ensures PayloadOf(config, tx) == Ok(payload)
       <==> exists u: nat ::
              && IsFirst(tx.blobs, config.utxoName, u) && |tx.blobs[u].data| == 128
              && payload.created == [tx.blobs[u].data[..32], tx.blobs[u].data[32..64]]
              && payload.nullified == [tx.blobs[u].data[64..96], tx.blobs[u].data[96..]]
  {
    FirstFound(tx.blobs, config.utxoName);
  }

  /** Applying is not atomic: a failed call leaves the state untouched exactly when its first real nullifier
      was already spent, or it has no real nullifier and its first real note already existed. */
  lemma FailedCallUnchangedIff(merge: Merge, ledger: Ledger, payload: UtxoPayload)
    requires WellFormed(ledger)
    requires !ApplyCommitments(merge, ledger, payload).1
    ensures ApplyCommitments(merge, ledger, payload).0 == ledger
       <==> if Spends(payload) != [] then Spends(payload)[0] in ledger.nullified
            else Creates(payload) != [] && Creates(payload)[0] in ledger.notes
  {
    RecordSucceedsIff(ledger.nullified, payload.nullified, true);
    if !Record(ledger.nullified, payload.nullified, true).1 {
      FailedRecordUnchangedIff(ledger.nullified, payload.nullified, true);
    } else {
      FailedRecordUnchangedIff(ledger.notes, payload.created, false);
      if Spends(payload) != [] {
        assert Spends(payload)[0] in Spends(payload);
      } else {
        assert Record(ledger.nullified, payload.nullified, true).0 == ledger.nullified;
      }
    }
  }

  /** The input: a new nullifier before a spent one. The call fails and leaves the new nullifier behind, so that no later
      call can spend it either. */
  lemma HalfApplied(merge: Merge, ledger: Ledger, created: seq<H256>, novel: H256, spent: H256, later: UtxoPayload)
    requires IsReal(novel, true) && novel !in ledger.nullified
    requires IsReal(spent, true) && spent in ledger.nullified
    requires novel in Spends(later)
    ensures var (after, ok) := ApplyCommitments(merge, ledger, UtxoPayload(created, [novel, spent]));
            && !ok && after == ledger.(nullified := Put(ledger.nullified, novel, novel))
            && !ApplyCommitments(merge, after, later).1
  {
    var keys, next := [novel, spent], Put(ledger.nullified, novel, novel);
    assert keys[1..] == [spent] && Record(next, [spent], true) == (next, false);
    assert Record(ledger.nullified, keys, true) == Record(next, keys[1..], true);
    var after := ApplyCommitments(merge, ledger, UtxoPayload(created, keys)).0;
    AppliedIff(merge, after, later);
  }

  // ---- runs ----

  /** The state after handling calls one after the other, whatever each of them returned. */
  function Run(merge: Merge, config: ContractConfig, ledger: Ledger, txs: seq<Calldata>): Ledger
    decreases |txs|
  {
    if txs == [] then ledger else Run(merge, config, Handle(merge, config, ledger, txs[0]).0, txs[1..])
  }

  function ResultAt(merge: Merge, config: ContractConfig, ledger: Ledger, txs: seq<Calldata>, i: nat): HandleResult
    requires i < |txs|
  {
    Handle(merge, config, Run(merge, config, ledger, txs[..i]), txs[i]).1
  }

  lemma {:induction false} RunSplit(merge: Merge, config: ContractConfig, ledger: Ledger, txs: seq<Calldata>, i: nat)
    requires i <= |txs|
    ensures Run(merge, config, ledger, txs) == Run(merge, config, Run(merge, config, ledger, txs[..i]), txs[i..])
    decreases i
  {
    if i == 0 {
      assert txs[0..] == txs;
    } else {
      assert txs[..i][1..] == txs[1..][..i - 1] && txs[1..][i - 1..] == txs[i..];
      RunSplit(merge, config, Handle(merge, config, ledger, txs[0]).0, txs[1..], i - 1);
    }
  }

  lemma {:induction false} RunKeepsLedger(merge: Merge, config: ContractConfig, ledger: Ledger, txs: seq<Calldata>)
    requires WellFormed(ledger)
    ensures var after := Run(merge, config, ledger, txs);
            && WellFormed(after)
            && ledger.notes.Keys <= after.notes.Keys && ledger.nullified.Keys <= after.nullified.Keys
    decreases |txs|
  {
    if txs != [] {
      HandleKeepsLedger(merge, config, ledger, txs[0]);
      RunKeepsLedger(merge, config, Handle(merge, config, ledger, txs[0]).0, txs[1..]);
    }
  }

  lemma RunStep(merge: Merge, config: ContractConfig, ledger: Ledger, txs: seq<Calldata>, i: nat)
    requires i < |txs|
    ensures Run(merge, config, ledger, txs[..i + 1])
         == Handle(merge, config, Run(merge, config, ledger, txs[..i]), txs[i]).0
  {
    RunSplit(merge, config, ledger, txs[..i + 1], i);
    assert txs[..i + 1][..i] == txs[..i] && txs[..i + 1][i..] == [txs[i]];
    var reached := Run(merge, config, ledger, txs[..i]);
    assert Run(merge, config, reached, [txs[i]]) == Handle(merge, config, reached, txs[i]).0;
  }

  /** What a successful call spent or created is in the trees from then on. */
  lemma AppliedStaysRecorded(merge: Merge, config: ContractConfig, ledger: Ledger, txs: seq<Calldata>, i: nat, j: nat)
    requires WellFormed(ledger)
    requires i < j <= |txs|
    requires ResultAt(merge, config, ledger, txs, i).Applied?
    ensures var payload, later := ResultAt(merge, config, ledger, txs, i).payload, Run(merge, config, ledger, txs[..j]);
            && (forall k <- Spends(payload) :: k in later.nullified)
            && (forall k <- Creates(payload) :: k in later.notes)
  {
    var before, after := Run(merge, config, ledger, txs[..i]), Run(merge, config, ledger, txs[..i + 1]);
    var payload := ResultAt(merge, config, ledger, txs, i).payload;
    RunStep(merge, config, ledger, txs, i);
    AppliedStores(merge, before, payload);
    RunKeepsLedger(merge, config, ledger, txs[..i + 1]);
    RunSplit(merge, config, ledger, txs[..j], i + 1);
    assert txs[..j][..i + 1] == txs[..i + 1];
    RunKeepsLedger(merge, config, after, txs[..j][i + 1..]);
  }

  /** No double spend: over any run of calls, failed and half-applied ones included, a successful call has
      pairwise different nullifiers and notes, and shares none with an earlier successful call. */
  lemma NoDoubleSpend(merge: Merge, config: ContractConfig, ledger: Ledger, txs: seq<Calldata>, j: nat)
    requires WellFormed(ledger)
    requires j < |txs| && ResultAt(merge, config, ledger, txs, j).Applied?
    ensures var later := ResultAt(merge, config, ledger, txs, j).payload;
            && Distinct(Spends(later)) && Distinct(Creates(later))
            && forall i | 0 <= i < j && ResultAt(merge, config, ledger, txs, i).Applied? ::
                 var earlier := ResultAt(merge, config, ledger, txs, i).payload;
                 && (forall k <- Spends(later) :: k !in Spends(earlier))
                 && (forall k <- Creates(later) :: k !in Creates(earlier))
  {
    var later := ResultAt(merge, config, ledger, txs, j).payload;
    AppliedIff(merge, Run(merge, config, ledger, txs[..j]), later);
    forall i | 0 <= i < j && ResultAt(merge, config, ledger, txs, i).Applied?
      ensures var earlier := ResultAt(merge, config, ledger, txs, i).payload;
              && (forall k <- Spends(later) :: k !in Spends(earlier))
              && (forall k <- Creates(later) :: k !in Creates(earlier))
    {
      AppliedStaysRecorded(merge, config, ledger, txs, i, j);
    }
  }
}
