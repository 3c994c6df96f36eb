/** The transactions the server builds, and when the state contract accepts them. */
module TxBuilder {
  import opened Wrappers
  import opened Sequences
  import opened Bytes
  import opened Blobs
  import opened UtxoState
  import opened ZkVm
  import opened Executor

  /** The hash over field elements, here over their 32-byte form. */
  type Hash = seq<H256> -> H256

  datatype Note = Note(kind: H256, contract: H256, address: H256, psi: H256, value: H256)

  datatype InputNote = InputNote(note: Note, secretKey: H256)

  /** `kind` is not part of what makes a note padding; a note without value has no commitment. */
  function PaddingNote(kind: H256): Note {
    Note(kind, ZERO_HASH, ZERO_HASH, ZERO_HASH, ZERO_HASH)
  }

  function NoteCommitment(hash: Hash, note: Note): H256 {
    if note.value == ZERO_HASH then ZERO_HASH
    else hash([note.kind, note.contract, note.value, note.address, note.psi, ZERO_HASH, ZERO_HASH])
  }

  function Nullifier(hash: Hash, input: InputNote): H256 {
    hash([input.note.psi, input.secretKey])
  }

  /** A note with value is hashed as kind, contract, value, address and psi, in this order, and two zeros; a nullifier is
      the hash of psi and secret key. */
  lemma HashedFields(hash: Hash, input: InputNote, fields: seq<H256>, secrets: seq<H256>)
    requires |fields| == 7 && fields[0] == input.note.kind && fields[1] == input.note.contract && fields[2] == input.note.value
    requires fields[3] == input.note.address && fields[4] == input.note.psi && fields[5] == fields[6] == ZERO_HASH
    requires |secrets| == 2 && secrets[0] == input.note.psi && secrets[1] == input.secretKey
    ensures NoteCommitment(hash, input.note) == if input.note.value == ZERO_HASH then ZERO_HASH else hash(fields)
    ensures Nullifier(hash, input) == hash(secrets)
  {
    var n := input.note;
    assert fields == [n.kind, n.contract, n.value, n.address, n.psi, ZERO_HASH, ZERO_HASH];
    assert secrets == [n.psi, input.secretKey];
  }

  function Concat(hashes: seq<H256>): (bytes: seq<byte>)
    ensures |bytes| == 32 * |hashes|
  {
    if hashes == [] then [] else hashes[0] + Concat(hashes[1..])
  }

  /** The state contract's blob: it calls the blobs at `callees`. */
  function StateBlob(name: string, callees: seq<nat>): Blob {
    Blob(name, EncodeStructured(Structured(None, Some(callees), STATE_ACTION)))
  }

  /** The inclusion proof's blob: called by the state contract's blob. */
  function InclusionBlob(name: string, payload: seq<byte>): Blob {
    Blob(name, EncodeStructured(Structured(Some(0), None, EncodeVec(payload))))
  }

  function TokenBlob(name: string, caller: Option<nat>, action: seq<byte>): Blob {
    Blob(name, EncodeStructured(Structured(caller, None, action)))
  }

  // ---- the faucet ----

  datatype Deposit = Deposit(tokenContract: string, action: seq<byte>)

  function OptionalBlob(name: string, data: Option<seq<byte>>): seq<Blob> {
    if data.Some? then [Blob(name, data.value)] else []
  }

  function ExtraBlobs(secp256k1: Option<seq<byte>>, wallet: Option<seq<byte>>, deposit: Option<Deposit>): seq<Blob> {
    OptionalBlob("secp256k1", secp256k1) + OptionalBlob("wallet", wallet)
    + if deposit.Some? then [TokenBlob(deposit.value.tokenContract, None, deposit.value.action)] else []
  }

  /** The optional blobs come in a fixed order, and there are no others. */
  lemma ExtrasInOrder(secp256k1: Option<seq<byte>>, wallet: Option<seq<byte>>, deposit: Option<Deposit>)
    ensures var extra, i, j := ExtraBlobs(secp256k1, wallet, deposit), if secp256k1.Some? then 1 else 0, if wallet.Some? then 1 else 0;
            && |extra| == i + j + (if deposit.Some? then 1 else 0)
            && (secp256k1.Some? ==> extra[0] == Blob("secp256k1", secp256k1.value))
            && (wallet.Some? ==> extra[i] == Blob("wallet", wallet.value))
            && (deposit.Some? ==>
                  && extra[i + j].contractName == deposit.value.tokenContract
                  && DecodeStructured(extra[i + j].data) == Some(Structured(None, None, deposit.value.action)))
  {
    if deposit.Some? {
      StructuredRoundTrip(Structured(None, None, deposit.value.action));
    }
  }

  class FaucetApp {
    const utxoName: string
    const stateName: string
    const inclName: string
    var notesRoot: H256
    var nullifierRoot: H256
    var noteIndex: nat

    constructor (utxoName: string, stateName: string, inclName: string)
      ensures this.utxoName == utxoName && this.stateName == stateName && this.inclName == inclName
      ensures notesRoot == nullifierRoot == ZERO_HASH && noteIndex == 0
    {
      this.utxoName, this.stateName, this.inclName := utxoName, stateName, inclName;
      notesRoot, nullifierRoot, noteIndex := ZERO_HASH, ZERO_HASH, 0;
    }

    /** Writes the output commitments and then the nullifiers of the inputs, one after the other. */
    method FillBlob(hash: Hash, commitments: seq<H256>, inputs: seq<InputNote>) returns (blobBytes: array<byte>)
      requires |commitments| == |inputs| == 2
      modifies `nullifierRoot
      ensures fresh(blobBytes)
      ensures blobBytes[..] == Concat(commitments + [Nullifier(hash, inputs[0]), Nullifier(hash, inputs[1])])
      ensures nullifierRoot == Nullifier(hash, inputs[1])
    {
      blobBytes := new byte[128](_ => 0);
      var offset := 0;
      for i := 0 to 2
        modifies blobBytes
        invariant offset == 32 * i && blobBytes[..offset] == Concat(commitments[..i])
      {
        WriteAt(blobBytes, offset, commitments[i]);
        ConcatSnoc(commitments[..i], commitments[i]);
        assert commitments[..i] + [commitments[i]] == commitments[..i + 1];
        offset := offset + 32;
      }
      assert commitments[..2] == commitments;
      ghost var written := commitments;
      ghost var nullifiers := [Nullifier(hash, inputs[0]), Nullifier(hash, inputs[1])];
      for i := 0 to 2
        modifies blobBytes, `nullifierRoot
        invariant offset == 64 + 32 * i && blobBytes[..offset] == Concat(written)
        invariant written == commitments + nullifiers[..i]
        invariant i == 2 ==> nullifierRoot == Nullifier(hash, inputs[1])
      {
        var nullifier := Nullifier(hash, inputs[i]);
        WriteAt(blobBytes, offset, nullifier);
        ConcatSnoc(written, nullifier);
        written := written + [nullifier];
        offset := offset + 32;
        nullifierRoot := nullifier;
      }
      assert blobBytes[..] == blobBytes[..128] && nullifiers[..2] == nullifiers;
    }

    /** Appends the blobs that the caller supplied and the deposit's. */
    static method AppendExtras(minted: seq<Blob>, secp256k1: Option<seq<byte>>, wallet: Option<seq<byte>>, deposit: Option<Deposit>)
      returns (blobs: seq<Blob>)
      ensures blobs == minted + ExtraBlobs(secp256k1, wallet, deposit)
    {
      blobs := minted;
      if secp256k1.Some? {
        blobs := blobs + [Blob("secp256k1", secp256k1.value)];
      }
      assert blobs == minted + OptionalBlob("secp256k1", secp256k1);
      if wallet.Some? {
        blobs := blobs + [Blob("wallet", wallet.value)];
      }
      assert blobs == minted + (OptionalBlob("secp256k1", secp256k1) + OptionalBlob("wallet", wallet));
      if deposit.Some? {
        blobs := blobs + [TokenBlob(deposit.value.tokenContract, None, deposit.value.action)];
      }
    }

    /** A mint to `note`, with the blobs that pay for it when it is a deposit. */
    method BuildTransaction(hash: Hash, kind: H256, note: Note, deposit: Option<Deposit>,
                            secp256k1: Option<seq<byte>>, wallet: Option<seq<byte>>)
      returns (blobs: seq<Blob>)
      requires noteIndex < U64_LIMIT
      modifies this
      ensures blobs == MintBlobs(utxoName, stateName, inclName, hash, old(notesRoot), note)
                       + ExtraBlobs(secp256k1, wallet, deposit)
      ensures notesRoot == old(notesRoot) && nullifierRoot == MintNullifier(hash)
      ensures noteIndex == (old(noteIndex) + 1) % U64_LIMIT
    {
      var inputs := [InputNote(PaddingNote(kind), ZERO_HASH), InputNote(PaddingNote(kind), ZERO_HASH)];
      var commitments := [NoteCommitment(hash, note), NoteCommitment(hash, PaddingNote(kind))];
      noteIndex := if noteIndex + 1 == U64_LIMIT then 0 else noteIndex + 1;
      var blobBytes := FillBlob(hash, commitments, inputs);
      assert commitments + [Nullifier(hash, inputs[0]), Nullifier(hash, inputs[1])] == MintEntries(hash, note);
      assert blobBytes[..][64..128] == blobBytes[64..128];
      var inclBytes := blobBytes[64..128] + notesRoot;
      var minted := [StateBlob(stateName, [2]), Blob(utxoName, blobBytes[..]), InclusionBlob(inclName, inclBytes)];
      assert minted == MintBlobs(utxoName, stateName, inclName, hash, old(notesRoot), note);
      blobs := AppendExtras(minted, secp256k1, wallet, deposit);
    }
  }

  method WriteAt(bytes: array<byte>, offset: nat, hash: H256)
    requires offset + 32 <= bytes.Length
    modifies bytes
    ensures bytes[..offset + 32] == old(bytes[..offset]) + hash
  {
    for i := 0 to 32
      invariant bytes[..offset] == old(bytes[..offset])
      invariant forall j | 0 <= j < i :: bytes[offset + j] == hash[j]
    {
      bytes[offset + i] := hash[i];
    }
  }

  lemma {:induction false} ConcatSnoc(hashes: seq<H256>, last: H256)
    ensures Concat(hashes + [last]) == Concat(hashes) + last
  {
    if hashes == [] {
      assert hashes + [last] == [last];
      assert Concat([last]) == last + Concat([]);
    } else {
      assert (hashes + [last])[1..] == hashes[1..] + [last];
      ConcatSnoc(hashes[1..], last);
    }
  }

  function MintNullifier(hash: Hash): H256 {
    hash([ZERO_HASH, ZERO_HASH])
  }

  /** The minted commitment, an absent one, and the nullifier of two padding inputs. */
  function MintEntries(hash: Hash, note: Note): seq<H256> {
    [NoteCommitment(hash, note), ZERO_HASH, MintNullifier(hash), MintNullifier(hash)]
  }

  function MintBlobs(utxoName: string, stateName: string, inclName: string, hash: Hash, notesRoot: H256, note: Note): seq<Blob> {
    var bytes := Concat(MintEntries(hash, note));
    [StateBlob(stateName, [2]), Blob(utxoName, bytes), InclusionBlob(inclName, bytes[64..128] + notesRoot)]
  }

  // ---- transfers and withdrawals ----

  datatype TokenTransfer = TokenTransfer(tokenContract: string, sender: string, action: seq<byte>)

  /** The inclusion payload is either sent along or computed from the input notes and a notes root. */
  datatype TransferRequest = TransferRequest(
    blobData: seq<byte>, smtBlobData: Option<seq<byte>>, inputNotes: Option<(InputNote, InputNote)>,
    notesRoot: Option<seq<byte>>, tokenTransfer: Option<TokenTransfer>)

  function ComputeSmtBlobData(hash: Hash, notes: (InputNote, InputNote), notesRoot: seq<byte>): Result<seq<byte>, string> {
    if |notesRoot| != 32 then Err("notes_root must be 32 bytes")
    else Ok(Concat([Nullifier(hash, notes.0), Nullifier(hash, notes.1)]) + notesRoot)
  }

  function SmtPayload(hash: Hash, request: TransferRequest): Result<seq<byte>, string> {
    match request.smtBlobData
    case Some(data) => if |data| != 96 then Err("smt_blob_data must be exactly 96 bytes") else Ok(data)
    case None =>
      if request.inputNotes.None? then Err("input_notes is required when smt_blob_data is not provided")
      else if request.notesRoot.None? then Err("notes_root is required when smt_blob_data is not provided")
      else ComputeSmtBlobData(hash, request.inputNotes.value, request.notesRoot.value)
  }

  /** The 96 bytes of a request: those sent along, or both input notes' nullifiers in order and the notes root. */
  ghost predicate PayloadIs(hash: Hash, request: TransferRequest, payload: seq<byte>) {
    && |payload| == 96
    && match request.smtBlobData
       case Some(data) => payload == data
       case None =>
         && request.inputNotes.Some? && request.notesRoot.Some? && |request.notesRoot.value| == 32
         && var (a, b) := request.inputNotes.value;
            && payload[..32] == hash([a.note.psi, a.secretKey]) && payload[32..64] == hash([b.note.psi, b.secretKey])
            && payload[64..] == request.notesRoot.value
  }

  lemma ConcatTwo(a: H256, b: H256)
    ensures Concat([a, b]) == a + b && |a + b| == 64
  {
    assert [a, b][1..] == [b] && [b][1..] == [];
    assert Concat([b]) == b + Concat([]);
  }

  /** A request that builds has just that payload. */
  lemma PayloadIff(hash: Hash, request: TransferRequest, payload: seq<byte>)
    ensures SmtPayload(hash, request) == Ok(payload) <==> PayloadIs(hash, request, payload)
  {
    if request.smtBlobData.None? && request.inputNotes.Some? && request.notesRoot.Some? && |request.notesRoot.value| == 32 {
      var root := request.notesRoot.value;
      var first, second := Nullifier(hash, request.inputNotes.value.0), Nullifier(hash, request.inputNotes.value.1);
      ConcatTwo(first, second);
      var computed := Concat([first, second]) + root;
      assert computed[..32] == first && computed[32..64] == second && computed[64..] == root;
      if |payload| == 96 {
        assert payload == payload[..32] + payload[32..64] + payload[64..];
        assert computed == computed[..32] + computed[32..64] + computed[64..];
      }
    }
  }

  predicate IsWithdraw(stateName: string, transfer: Option<TokenTransfer>) {
    transfer.Some? && transfer.value.sender == stateName
  }

  /** The state contract calls the token blob only when it is the one sending tokens. */
  function WithdrawTopology(stateName: string, transfer: Option<TokenTransfer>): (seq<nat>, Option<nat>) {
    if IsWithdraw(stateName, transfer) then ([2, 3], Some(0)) else ([2], None)
  }

  function BuildBlobTransaction(utxoName: string, stateName: string, inclName: string, hash: Hash, request: TransferRequest)
    : Result<seq<Blob>, string>
  {
    var payload :- SmtPayload(hash, request);
    var (callees, tokenCaller) := WithdrawTopology(stateName, request.tokenTransfer);
    Ok([StateBlob(stateName, callees), Blob(utxoName, request.blobData), InclusionBlob(inclName, payload)]
       + if request.tokenTransfer.None? then []
         else [TokenBlob(request.tokenTransfer.value.tokenContract, tokenCaller, request.tokenTransfer.value.action)])
  }

  // ---- acceptance by the contract ----

  predicate PassesContract(config: ContractConfig, roots: seq<Fingerprint>, tx: Calldata) {
    var callees := ParseCalldata(tx);
    callees.Ok? && CheckNoirBlobs(config, roots, tx, callees.value).Ok?
  }

  lemma {:induction false} PositionsAre(blobs: seq<Blob>, caller: nat, start: nat)
    requires start <= |blobs|
    ensures forall i :: i in CalleePositions(blobs, caller, start) <==> start <= i < |blobs| && NamesCaller(blobs[i], caller)
    decreases |blobs| - start
  {
    if start < |blobs| {
      PositionsAre(blobs, caller, start + 1);
    }
  }

  lemma SameMembers(a: seq<nat>, b: seq<nat>)
    ensures (set i | i in a) == (set i | i in b) <==> forall i: nat :: i in a <==> i in b
  {
    var left, right := set i | i in a, set i | i in b;
    assert forall i: nat :: i in left <==> i in a;
    assert forall i: nat :: i in right <==> i in b;
  }

  /** `callees` are the positions of the blobs naming the first blob as their caller, no more and no fewer. */
  ghost predicate DeclaresCallees(blobs: seq<Blob>, callees: seq<nat>) {
    forall i: nat :: i in callees <==> i < |blobs| && NamesCaller(blobs[i], 0)
  }

  /** A call parses exactly when the blob it is addressed to carries an action of one byte and declares as its callees the
      blobs that name it as their caller, no more and no fewer. */
  lemma ParseIff(calldata: Calldata)
    ensures ParseCalldata(calldata).Ok?
       <==> && calldata.index < |calldata.blobs|
            && var s := DecodeStructured(calldata.blobs[calldata.index].data);
               && s.Some? && |s.value.parameters| == 1
               && forall i: nat :: i in s.value.callees.GetOr([])
                                   <==> i < |calldata.blobs| && NamesCaller(calldata.blobs[i], calldata.index)
    ensures ParseCalldata(calldata).Ok? ==> ParseCalldata(calldata).value == BlobsNaming(calldata.blobs, calldata.index)
  {
    if calldata.index < |calldata.blobs| && DecodeStructured(calldata.blobs[calldata.index].data).Some? {
      var declared := DecodeStructured(calldata.blobs[calldata.index].data).value.callees.GetOr([]);
      SameMembers(declared, CalleePositions(calldata.blobs, calldata.index, 0));
      PositionsAre(calldata.blobs, calldata.index, 0);
    }
  }

  /** `named` are the blobs at `positions`, which increase from `start` on. */
  ghost predicate Picks(blobs: seq<Blob>, positions: seq<nat>, named: seq<Blob>, start: nat) {
    && |named| == |positions|
    && (forall i | 0 <= i < |named| :: start <= positions[i] < |blobs| && named[i] == blobs[positions[i]])
    && (forall i, j | 0 <= i < j < |named| :: positions[i] < positions[j])
  }

  lemma PicksCons(blobs: seq<Blob>, positions: seq<nat>, named: seq<Blob>, start: nat)
    requires start < |blobs| && Picks(blobs, positions, named, start + 1)
    ensures Picks(blobs, [start] + positions, [blobs[start]] + named, start) && Picks(blobs, positions, named, start)
  {
  }

  lemma NamingStep(blobs: seq<Blob>, caller: nat, start: nat)
    requires start < |blobs|
    ensures var positions, named := CalleePositions(blobs, caller, start + 1), BlobsNaming(blobs[start + 1..], caller);
            && CalleePositions(blobs, caller, start) == (if NamesCaller(blobs[start], caller) then [start] + positions else positions)
            && BlobsNaming(blobs[start..], caller) == if NamesCaller(blobs[start], caller) then [blobs[start]] + named else named
  {
    assert blobs[start..][1..] == blobs[start + 1..];
    assert [] + BlobsNaming(blobs[start + 1..], caller) == BlobsNaming(blobs[start + 1..], caller);
  }

  /** ... and its callees are those blobs in their order in the transaction. */
  lemma {:induction false} NamingInOrder(blobs: seq<Blob>, caller: nat, start: nat)
    requires start <= |blobs|
    ensures Picks(blobs, CalleePositions(blobs, caller, start), BlobsNaming(blobs[start..], caller), start)
    decreases |blobs| - start
  {
    if start < |blobs| {
      NamingInOrder(blobs, caller, start + 1);
      NamingStep(blobs, caller, start);
      PicksCons(blobs, CalleePositions(blobs, caller, start + 1), BlobsNaming(blobs[start + 1..], caller), start);
    }
  }

  lemma ParsesIff(blobs: seq<Blob>, name: string, callees: seq<nat>)
    requires blobs != [] && blobs[0] == StateBlob(name, callees)
    requires |callees| < U32_LIMIT && forall i <- callees :: i < U64_LIMIT
    ensures ParseCalldata(Calldata(blobs, 0))
         == if DeclaresCallees(blobs, callees) then Ok(BlobsNaming(blobs, 0))
            else Err("Blob callees do not match actual callees")
  {
    StructuredRoundTrip(Structured(None, Some(callees), STATE_ACTION));
    SameMembers(callees, CalleePositions(blobs, 0, 0));
    PositionsAre(blobs, 0, 0);
  }

  lemma {:induction false} QuietBlobs(blobs: seq<Blob>, caller: nat)
    requires forall b <- blobs :: !NamesCaller(b, caller)
    ensures BlobsNaming(blobs, caller) == []
  {
    if blobs != [] {
      assert blobs[0] in blobs && forall b <- blobs[1..] :: b in blobs;
      QuietBlobs(blobs[1..], caller);
    }
  }

  /** What the contract checks once the inclusion blob is found among the callees. */
  lemma ChecksIff(config: ContractConfig, roots: seq<Fingerprint>, tx: Calldata, utxoBlob: Blob, payload: seq<byte>, others: seq<Blob>)
    requires FindBlob(tx.blobs, config.utxoName) == Some(utxoBlob) && |utxoBlob.data| == 128
    requires |payload| == 96
    ensures CheckNoirBlobs(config, roots, tx, [InclusionBlob(config.smtInclName, payload)] + others).Ok?
       <==> payload[64..72] in roots && payload[..64] == utxoBlob.data[64..] && CheckTokenCallees(config, others).Ok?
  {
    var inclusion := InclusionBlob(config.smtInclName, payload);
    var callees := [inclusion] + others;
    StructuredRoundTrip(Structured(Some(0), None, EncodeVec(payload)));
    VecRoundTrip(payload);
    assert Without(callees, 0) == others;
    var data := utxoBlob.data;
    assert payload[..64] == payload[..32] + payload[32..64] && data[64..] == data[64..96] + data[96..];
    if payload[..32] == data[64..96] && payload[32..64] == data[96..] {
      assert payload[..64] == data[64..];
    }
    if payload[..64] == data[64..] {
      assert payload[..32] == payload[..64][..32] && data[64..96] == data[64..][..32];
      assert payload[32..64] == payload[..64][32..] && data[96..] == data[64..][32..];
    }
  }

  lemma NamedBlobs(stateName: string, callees: seq<nat>, inclName: string, payload: seq<byte>)
    requires |callees| < U32_LIMIT && forall i <- callees :: i < U64_LIMIT
    ensures !NamesCaller(StateBlob(stateName, callees), 0) && NamesCaller(InclusionBlob(inclName, payload), 0)
  {
    StructuredRoundTrip(Structured(None, Some(callees), STATE_ACTION));
    StructuredRoundTrip(Structured(Some(0), None, EncodeVec(payload)));
  }

  lemma NamingOfThree(blobs: seq<Blob>)
    requires |blobs| >= 3
    requires !NamesCaller(blobs[0], 0) && !NamesCaller(blobs[1], 0) && NamesCaller(blobs[2], 0)
    ensures BlobsNaming(blobs, 0) == [blobs[2]] + BlobsNaming(blobs[3..], 0)
  {
    assert blobs[1..][1..] == blobs[2..] && blobs[2..][1..] == blobs[3..];
    assert blobs[1..][0] == blobs[1] && blobs[2..][0] == blobs[2];
    assert BlobsNaming(blobs, 0) == BlobsNaming(blobs[1..], 0);
    assert BlobsNaming(blobs[1..], 0) == BlobsNaming(blobs[2..], 0);
  }

  ghost predicate Quiet(blobs: seq<Blob>) {
    forall b <- blobs :: !NamesCaller(b, 0)
  }

  /** With the inclusion blob third, it is the only callee exactly when neither the UTXO bytes nor any later
      blob happens to name the state blob as its caller. */
  lemma OnlyInclusionCalled(blobs: seq<Blob>)
    requires |blobs| >= 3 && !NamesCaller(blobs[0], 0) && NamesCaller(blobs[2], 0)
    ensures DeclaresCallees(blobs, [2]) <==> !NamesCaller(blobs[1], 0) && Quiet(blobs[3..])
  {
    if !NamesCaller(blobs[1], 0) && Quiet(blobs[3..]) {
      forall i: nat | 3 <= i < |blobs|
        ensures !NamesCaller(blobs[i], 0)
      {
        assert blobs[i] == blobs[3..][i - 3];
      }
    }
    if DeclaresCallees(blobs, [2]) {
      assert 1 !in [2];
      forall j: nat | j < |blobs| - 3
        ensures !NamesCaller(blobs[3..][j], 0)
      {
        assert blobs[3..][j] == blobs[j + 3] && j + 3 !in [2];
      }
    }
  }

  /** In a withdrawal the token blob is a callee too. */
  lemma InclusionAndTokenCalled(blobs: seq<Blob>)
    requires |blobs| == 4 && !NamesCaller(blobs[0], 0) && NamesCaller(blobs[2], 0) && NamesCaller(blobs[3], 0)
    ensures DeclaresCallees(blobs, [2, 3]) <==> !NamesCaller(blobs[1], 0)
  {
    if DeclaresCallees(blobs, [2, 3]) {
      assert 1 !in [2, 3];
    }
  }

  /** The first three blobs of every transaction. */
  function Leading(config: ContractConfig, stateName: string, callees: seq<nat>, data: seq<byte>, payload: seq<byte>): seq<Blob> {
    [StateBlob(stateName, callees), Blob(config.utxoName, data), InclusionBlob(config.smtInclName, payload)]
  }

  lemma PlainParse(config: ContractConfig, stateName: string, data: seq<byte>, payload: seq<byte>, rest: seq<Blob>)
    ensures var blobs := Leading(config, stateName, [2], data, payload) + rest;
            ParseCalldata(Calldata(blobs, 0))
            == if !NamesCaller(blobs[1], 0) && Quiet(rest) then Ok([blobs[2]])
               else Err("Blob callees do not match actual callees")
  {
    var blobs := Leading(config, stateName, [2], data, payload) + rest;
    NamedBlobs(stateName, [2], config.smtInclName, payload);
    ParsesIff(blobs, stateName, [2]);
    OnlyInclusionCalled(blobs);
    assert blobs[3..] == rest;
    if !NamesCaller(blobs[1], 0) && Quiet(rest) {
      NamingOfThree(blobs);
      QuietBlobs(rest, 0);
      assert [blobs[2]] + [] == [blobs[2]];
    }
  }

  lemma FindSecond(blobs: seq<Blob>, name: string)
    requires |blobs| >= 2 && blobs[0].contractName != name && blobs[1].contractName == name
    ensures FindBlob(blobs, name) == Some(blobs[1])
  {
    assert blobs[1..][0] == blobs[1];
  }

  /** Without a token call the checks pass exactly when the root is in the window, the nullifiers repeat, and no
      other blob names the state blob as its caller. */
  lemma PlainAccepted(config: ContractConfig, roots: seq<Fingerprint>, stateName: string, data: seq<byte>,
                      payload: seq<byte>, rest: seq<Blob>)
    requires stateName != config.utxoName && |data| == 128 && |payload| == 96
    ensures var blobs := Leading(config, stateName, [2], data, payload) + rest;
            PassesContract(config, roots, Calldata(blobs, 0))
            <==> payload[64..72] in roots && payload[..64] == data[64..] && !NamesCaller(blobs[1], 0) && Quiet(rest)
  {
    var blobs := Leading(config, stateName, [2], data, payload) + rest;
    PlainParse(config, stateName, data, payload, rest);
    FindSecond(blobs, config.utxoName);
    ChecksIff(config, roots, Calldata(blobs, 0), blobs[1], payload, []);
    assert [blobs[2]] + [] == [blobs[2]];
  }

  lemma WithdrawParse(config: ContractConfig, stateName: string, data: seq<byte>, payload: seq<byte>, token: Blob)
    requires NamesCaller(token, 0)
    ensures var blobs := Leading(config, stateName, [2, 3], data, payload) + [token];
            ParseCalldata(Calldata(blobs, 0))
            == if !NamesCaller(blobs[1], 0) then Ok([blobs[2], token])
               else Err("Blob callees do not match actual callees")
  {
    var blobs := Leading(config, stateName, [2, 3], data, payload) + [token];
    NamedBlobs(stateName, [2, 3], config.smtInclName, payload);
    ParsesIff(blobs, stateName, [2, 3]);
    InclusionAndTokenCalled(blobs);
    if !NamesCaller(blobs[1], 0) {
      NamingOfThree(blobs);
      assert blobs[3..] == [token];
      assert [token][1..] == [] && [token] + BlobsNaming([], 0) == [token];
      assert [blobs[2]] + [token] == [blobs[2], token];
    }
  }

  /** In a withdrawal the token blob must also belong to the configured token contract. */
  lemma WithdrawAccepted(config: ContractConfig, roots: seq<Fingerprint>, stateName: string, data: seq<byte>,
                         payload: seq<byte>, token: Blob)
    requires stateName != config.utxoName && |data| == 128 && |payload| == 96
    requires NamesCaller(token, 0)
    ensures var blobs := Leading(config, stateName, [2, 3], data, payload) + [token];
            PassesContract(config, roots, Calldata(blobs, 0))
            <==> payload[64..72] in roots && payload[..64] == data[64..] && !NamesCaller(blobs[1], 0)
                 && token.contractName == config.smtName
  {
    var blobs := Leading(config, stateName, [2, 3], data, payload) + [token];
    WithdrawParse(config, stateName, data, payload, token);
    FindSecond(blobs, config.utxoName);
    ChecksIff(config, roots, Calldata(blobs, 0), blobs[1], payload, [token]);
    assert [blobs[2]] + [token] == [blobs[2], token];
    TokenCalleesIff(config, [token]);
  }

  /** A mint or deposit passes the contract's checks exactly when its notes root is in the window and no blob
      besides the inclusion proof names the state blob as its caller; its nullifiers always match. */
  lemma MintAccepted(config: ContractConfig, roots: seq<Fingerprint>, stateName: string, hash: Hash, notesRoot: H256,
                     note: Note, extra: seq<Blob>)
    requires stateName != config.utxoName
    ensures var blobs := MintBlobs(config.utxoName, stateName, config.smtInclName, hash, notesRoot, note) + extra;
            PassesContract(config, roots, Calldata(blobs, 0))
            <==> FingerprintOf(notesRoot) in roots && !NamesCaller(blobs[1], 0) && Quiet(extra)
  {
    var data := Concat(MintEntries(hash, note));
    var payload := data[64..128] + notesRoot;
    PlainAccepted(config, roots, stateName, data, payload, extra);
    assert payload[64..72] == FingerprintOf(notesRoot) && payload[..64] == data[64..];
  }

  /** The token blob of a deposit never names a caller, so only the caller-supplied blobs can be in the way. */
  lemma DepositBlobsQuiet(secp256k1: Option<seq<byte>>, wallet: Option<seq<byte>>, deposit: Option<Deposit>)
    ensures Quiet(ExtraBlobs(secp256k1, wallet, deposit))
       <==> (secp256k1.Some? ==> !NamesCaller(Blob("secp256k1", secp256k1.value), 0))
            && (wallet.Some? ==> !NamesCaller(Blob("wallet", wallet.value), 0))
  {
    if deposit.Some? {
      StructuredRoundTrip(Structured(None, None, deposit.value.action));
    }
    var first, second := OptionalBlob("secp256k1", secp256k1), OptionalBlob("wallet", wallet);
    var extra := ExtraBlobs(secp256k1, wallet, deposit);
    assert forall b :: b in extra <==>
      (b in first || b in second
       || (deposit.Some? && b == TokenBlob(deposit.value.tokenContract, None, deposit.value.action)));
    if secp256k1.Some? {
      assert first[0] in first;
    }
    if wallet.Some? {
      assert second[0] in second;
    }
  }

  /** The contract reads from a mint the one new commitment, and no nullifier once padding is dropped. */
  lemma MintPayload(config: ContractConfig, stateName: string, hash: Hash, notesRoot: H256, note: Note, extra: seq<Blob>)
    requires stateName != config.utxoName
    requires MintNullifier(hash) == PADDING_NULLIFIER
    ensures var blobs := MintBlobs(config.utxoName, stateName, config.smtInclName, hash, notesRoot, note) + extra;
            var commitment, payload := NoteCommitment(hash, note), PayloadOf(config, Calldata(blobs, 0));
            && payload == Ok(UtxoPayload([commitment, ZERO_HASH], [PADDING_NULLIFIER, PADDING_NULLIFIER]))
            && Spends(payload.value) == []
            && Creates(payload.value) == if commitment == ZERO_HASH then [] else [commitment]
  {
    var blobs := MintBlobs(config.utxoName, stateName, config.smtInclName, hash, notesRoot, note) + extra;
    FindSecond(blobs, config.utxoName);
    var entries := MintEntries(hash, note);
    ConcatParses(entries);
    var payload := UtxoPayload([entries[0], ZERO_HASH], [PADDING_NULLIFIER, PADDING_NULLIFIER]);
    assert entries[..2] == payload.created && entries[2..] == payload.nullified;
    FilterPair(payload.created[0], ZERO_HASH, false);
    FilterPair(PADDING_NULLIFIER, PADDING_NULLIFIER, true);
  }

  lemma FilterPair(a: H256, b: H256, isNullifier: bool)
    ensures FilterKeys([a, b], isNullifier)
         == (if IsReal(a, isNullifier) then [a] else []) + (if IsReal(b, isNullifier) then [b] else [])
  {
    var last := if IsReal(b, isNullifier) then [b] else [];
    assert [b][1..] == [] && FilterKeys([b][1..], isNullifier) == [];
    assert FilterKeys([b], isNullifier) == last;
    assert [a, b][1..] == [b];
  }

  /** Parsing undoes the layout of four hashes in a row. */
  lemma ConcatParses(entries: seq<H256>)
    requires |entries| == 4
    ensures ParseUtxoBlob(Concat(entries)) == Ok(UtxoPayload(entries[..2], entries[2..]))
  {
    var bytes := Concat(entries);
    var a: seq<byte>, b: seq<byte>, c: seq<byte>, d: seq<byte> := entries[0], entries[1], entries[2], entries[3];
    assert Concat(entries[3..]) == d by {
      assert entries[3..][1..] == [];
    }
    assert entries[2..][1..] == entries[3..] && Concat(entries[2..]) == c + d;
    assert entries[1..][1..] == entries[2..] && Concat(entries[1..]) == b + (c + d);
    assert bytes == a + (b + (c + d));
    assert entries[..2] == [entries[0], entries[1]] && entries[2..] == [entries[2], entries[3]];
    assert bytes[..32] == a && bytes[32..64] == b && bytes[64..96] == c && bytes[96..] == d;
  }

  /** A transfer request fails to build exactly when it has no payload; else it gives a transaction that passes the
      contract's checks exactly when its root is in the window, its inclusion payload repeats the blob's nullifiers, the
      blob's bytes do not name the state blob as caller, and, for a withdrawal, the token is the configured one. */
  lemma TransferAccepted(config: ContractConfig, roots: seq<Fingerprint>, stateName: string, hash: Hash, request: TransferRequest)
    requires stateName != config.utxoName && |request.blobData| == 128
    ensures var built := BuildBlobTransaction(config.utxoName, stateName, config.smtInclName, hash, request);
            && (built.Ok? <==> exists payload :: PayloadIs(hash, request, payload))
            && forall payload | PayloadIs(hash, request, payload) ::
                 PassesContract(config, roots, Calldata(built.value, 0))
                 <==> && payload[64..72] in roots && payload[..64] == request.blobData[64..]
                      && !NamesCaller(Blob(config.utxoName, request.blobData), 0)
                      && (IsWithdraw(stateName, request.tokenTransfer) ==>
                            request.tokenTransfer.value.tokenContract == config.smtName)
  {
    var computed := SmtPayload(hash, request);
    if computed.Ok? {
      PayloadIff(hash, request, computed.value);
      BuiltAccepted(config, roots, stateName, hash, request);
    }
    forall payload | PayloadIs(hash, request, payload)
      ensures computed == Ok(payload)
    {
      PayloadIff(hash, request, payload);
    }
  }

  /** A transfer whose payload is computed, with a blob that ends in the nullifiers of the input notes: the checks depend
      on the root, the blob's bytes and, for a withdrawal, the token alone. */
  lemma OwnNullifiersAccepted(config: ContractConfig, roots: seq<Fingerprint>, stateName: string, hash: Hash,
                              request: TransferRequest, a: InputNote, b: InputNote, notesRoot: H256)
    requires stateName != config.utxoName && |request.blobData| == 128
    requires request.smtBlobData == None && request.inputNotes == Some((a, b)) && request.notesRoot == Some(notesRoot)
    requires request.blobData[64..96] == hash([a.note.psi, a.secretKey])
    requires request.blobData[96..] == hash([b.note.psi, b.secretKey])
    ensures var built := BuildBlobTransaction(config.utxoName, stateName, config.smtInclName, hash, request);
            && built.Ok?
            && (PassesContract(config, roots, Calldata(built.value, 0))
                <==> && FingerprintOf(notesRoot) in roots && !NamesCaller(Blob(config.utxoName, request.blobData), 0)
                     && (IsWithdraw(stateName, request.tokenTransfer) ==>
                           request.tokenTransfer.value.tokenContract == config.smtName))
  {
    var first: seq<byte>, second: seq<byte> := hash([a.note.psi, a.secretKey]), hash([b.note.psi, b.secretKey]);
    var payload := first + second + notesRoot;
    assert payload[..32] == first && payload[32..64] == second && payload[64..] == notesRoot;
    assert PayloadIs(hash, request, payload);
    assert payload[64..72] == FingerprintOf(notesRoot);
    assert request.blobData[64..] == request.blobData[64..96] + request.blobData[96..];
    assert payload[..64] == request.blobData[64..];
    TransferAccepted(config, roots, stateName, hash, request);
  }

  lemma BuiltAccepted(config: ContractConfig, roots: seq<Fingerprint>, stateName: string, hash: Hash, request: TransferRequest)
    requires stateName != config.utxoName && |request.blobData| == 128
    requires SmtPayload(hash, request).Ok? && |SmtPayload(hash, request).value| == 96
    ensures var built, payload := BuildBlobTransaction(config.utxoName, stateName, config.smtInclName, hash, request),
                                  SmtPayload(hash, request).value;
            && built.Ok?
            && (PassesContract(config, roots, Calldata(built.value, 0))
                <==> && payload[64..72] in roots
                     && payload[..64] == request.blobData[64..]
                     && !NamesCaller(Blob(config.utxoName, request.blobData), 0)
                     && (IsWithdraw(stateName, request.tokenTransfer) ==>
                           request.tokenTransfer.value.tokenContract == config.smtName))
  {
    var payload, transfer, data := SmtPayload(hash, request).value, request.tokenTransfer, request.blobData;
    if transfer.None? {
      PlainAccepted(config, roots, stateName, data, payload, []);
    } else if IsWithdraw(stateName, transfer) {
      var token := TokenBlob(transfer.value.tokenContract, Some(0), transfer.value.action);
      StructuredRoundTrip(Structured(Some(0), None, transfer.value.action));
      WithdrawAccepted(config, roots, stateName, data, payload, token);
    } else {
      var token := TokenBlob(transfer.value.tokenContract, None, transfer.value.action);
      StructuredRoundTrip(Structured(None, None, transfer.value.action));
      assert token in [token];
      PlainAccepted(config, roots, stateName, data, payload, [token]);
    }
  }
}
