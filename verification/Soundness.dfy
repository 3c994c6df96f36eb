/** What the contract's acceptance says about a witness that was not read from the full state: exactly when it is
    sound, and the witnesses that are accepted without being sound. */
module Soundness {
  import opened Wrappers
  import opened Sequences
  import opened Bytes
  import opened SparseMerkle
  import opened MultiProof
  import opened Blobs
  import opened UtxoState
  import opened ZkVm
  import opened Executor
  import opened Refinement

  /** A witness for `keys` that uses a multi-proof exactly when there is something to prove. */
  predicate WitnessFor(w: Witness, keys: seq<H256>) {
    Keys(w.values) == keys && (w.proof.Opening? <==> keys != [])
  }

  ghost predicate CollidesWith(merge: Merge, leaves: map<H256, H256>, w: Witness) {
    w.proof.Opening? && Collision(merge, leaves, w.proof.tree, [], w.values)
  }

  lemma ForeignWitness(merge: Merge, leaves: map<H256, H256>, w: Witness, keys: seq<H256>, all: map<H256, H256>)
    requires forall k <- leaves :: leaves[k] != ZERO_HASH
    requires WitnessFor(w, keys) && AllZero(w)
    requires ComputeRoot(merge, w) == Ok(Root(merge, leaves)) && !CollidesWith(merge, leaves, w)
    ensures Fresh(leaves, keys)
    ensures IsUnion(leaves, keys, all) ==>
              |w.values| == |keys| &&
              ComputeRoot(merge, w.(values := SetValues(w.values, keys))) == Ok(Root(merge, all))
  {
    if keys == [] {
      if IsUnion(leaves, keys, all) {
        assert all == leaves;
      }
    } else {
      OpeningBinds(merge, leaves, w.proof.tree, [], w.values);
      OpeningDistinct(merge, w.proof.tree, [], w.values);
      forall i | 0 <= i < |keys|
        ensures keys[i] !in leaves
      {
        assert w.values[i] in w.values && w.values[i].key == keys[i];
      }
      if IsUnion(leaves, keys, all) {
        UnionRewrites(leaves, w.values, all);
        KeysOfSetValues(w.values, keys);
        OpeningUpdates(merge, leaves, w.proof.tree, [], w.values, SetValues(w.values, keys), all);
      }
    }
  }

  lemma SnapshotInjective(a: H256, b: H256, c: H256, d: H256)
    requires Snapshot(a, b) == Snapshot(c, d)
    ensures a == c && b == d
  {
  }

  /** Soundness for any witness, whoever built it: if it is about the transaction's own keys and commits to the
      full state, then executing the transaction on it means that the full state accepts the transaction's
      payload too, and both commit to the same state afterwards - or the witness exhibits a hash collision. */
  lemma AnyWitnessIsSound(merge: Merge, ledger: Ledger, state: ZkVmState, tx: Calldata, payload: UtxoPayload)
    requires WellFormed(ledger)
    requires PayloadOf(state.config, tx) == Ok(payload)
    requires WitnessFor(state.created, Creates(payload)) && WitnessFor(state.nullified, Spends(payload))
    requires Commit(merge, state) == Ok(Commitment(merge, ledger))
    requires !CollidesWith(merge, ledger.notes, state.created) && !CollidesWith(merge, ledger.nullified, state.nullified)
    requires Execute(state, tx).Ok?
    ensures var (after, ok) := ApplyCommitments(merge, ledger, payload);
            ok && Commit(merge, Execute(state, tx).value) == Ok(Commitment(merge, after))
  {
    var notesRoot, nullifiedRoot := ComputeRoot(merge, state.created).value, ComputeRoot(merge, state.nullified).value;
    SnapshotInjective(notesRoot, nullifiedRoot, Root(merge, ledger.notes), Root(merge, ledger.nullified));
    var after := ApplyCommitments(merge, ledger, payload).0;
    ForeignWitness(merge, ledger.notes, state.created, Creates(payload), after.notes);
    ForeignWitness(merge, ledger.nullified, state.nullified, Spends(payload), after.nullified);
    AppliedIff(merge, ledger, payload);
    AppliedStores(merge, ledger, payload);
    ExecuteOverwritesWitness(state, tx, payload);
  }

  // ---- exactly when a witness is sound ----

  /** Two trees whose digests agree somewhere although their child digests there do not. */
  ghost predicate TreesCollide(merge: Merge, a: map<H256, H256>, b: map<H256, H256>) {
    exists p: Path {:trigger Children(merge, a, p)} | |p| < DEPTH ::
      Children(merge, a, p) != Children(merge, b, p) && Node(merge, a, p) == Node(merge, b, p)
  }

  /** Trees with one root have the same leaves, or collide. */
  lemma {:induction false} RootBinds(merge: Merge, a: map<H256, H256>, b: map<H256, H256>, p: Path)
    requires Node(merge, a, p) == Node(merge, b, p) && !TreesCollide(merge, a, b)
    ensures forall k: H256 :: p <= Bits(k) ==> LeafValue(a, k) == LeafValue(b, k)
    decreases DEPTH - |p|
  {
    if |p| == DEPTH {
      forall k: H256 | p <= Bits(k)
        ensures LeafValue(a, k) == LeafValue(b, k)
      {
        KeyOfBits(k);
        assert p == Bits(k);
      }
    } else {
      assert Children(merge, a, p) == Children(merge, b, p);
      RootBinds(merge, a, b, p + [false]);
      RootBinds(merge, a, b, p + [true]);
      forall k: H256 | p <= Bits(k)
        ensures p + [Bits(k)[|p|]] <= Bits(k)
      {
      }
    }
  }

  function PutAll(leaves: map<H256, H256>, keys: seq<H256>, values: seq<H256>): map<H256, H256>
    requires |keys| == |values|
  {
    if keys == [] then leaves else Put(PutAll(leaves, keys[1..], values[1..]), keys[0], values[0])
  }

  lemma {:induction false} PutAllLeaves(leaves: map<H256, H256>, keys: seq<H256>, values: seq<H256>)
    requires |keys| == |values| && Distinct(keys)
    ensures forall i | 0 <= i < |keys| :: LeafValue(PutAll(leaves, keys, values), keys[i]) == values[i]
    ensures forall k: H256 :: k !in keys ==> LeafValue(PutAll(leaves, keys, values), k) == LeafValue(leaves, k)
  {
    if keys != [] {
      PutAllLeaves(leaves, keys[1..], values[1..]);
      assert keys == [keys[0]] + keys[1..];
      forall i | 0 < i < |keys|
        ensures keys[i] == keys[1..][i - 1] && values[i] == values[1..][i - 1] && keys[i] != keys[0]
      {
      }
    }
  }

  /** The tree a witness commits to once its leaves carry `commitments`: without a multi-proof the old one. */
  function TreeAfter(leaves: map<H256, H256>, w: Witness, commitments: seq<H256>): map<H256, H256>
    requires |w.values| == |commitments|
  {
    if w.proof.Opening? then PutAll(leaves, Keys(w.values), commitments) else leaves
  }

  function Overwritten(w: Witness, commitments: seq<H256>): Witness
    requires |w.values| == |commitments|
  {
    w.(values := SetValues(w.values, commitments))
  }

  lemma RootAfter(merge: Merge, leaves: map<H256, H256>, w: Witness, commitments: seq<H256>)
    requires |w.values| == |commitments|
    requires ComputeRoot(merge, w) == Ok(Root(merge, leaves)) && !CollidesWith(merge, leaves, w)
    ensures w.proof.Opening? ==> Distinct(Keys(w.values)) && w.values != []
    ensures ComputeRoot(merge, Overwritten(w, commitments)) == Ok(Root(merge, TreeAfter(leaves, w, commitments)))
  {
    if w.proof.Opening? {
      var rewritten, updated := SetValues(w.values, commitments), TreeAfter(leaves, w, commitments);
      OpeningDistinct(merge, w.proof.tree, [], w.values);
      PutAllLeaves(leaves, Keys(w.values), commitments);
      KeysOfSetValues(w.values, commitments);
      forall e <- rewritten
        ensures LeafValue(updated, e.key) == e.value
      {
        var i :| 0 <= i < |rewritten| && rewritten[i] == e;
        assert Keys(w.values)[i] == e.key;
      }
      OpeningUpdates(merge, leaves, w.proof.tree, [], w.values, rewritten, updated);
    }
  }

  /** The keys a multi-proof opens are those of the commitments if both trees have the same leaves afterwards. */
  lemma SameKeys(leaves: map<H256, H256>, w: Witness, commitments: seq<H256>, all: map<H256, H256>)
    requires |w.values| == |commitments| && w.proof.Opening? && Distinct(Keys(w.values))
    requires forall k <- Keys(w.values) :: k !in leaves
    requires ZERO_HASH !in commitments && IsUnion(leaves, commitments, all)
    requires forall k: H256 :: LeafValue(TreeAfter(leaves, w, commitments), k) == LeafValue(all, k)
    ensures Keys(w.values) == commitments
  {
    PutAllLeaves(leaves, Keys(w.values), commitments);
    forall i | 0 <= i < |commitments|
      ensures Keys(w.values)[i] == commitments[i]
    {
      var k := Keys(w.values)[i];
      assert k in Keys(w.values) && commitments[i] in commitments;
      assert LeafValue(all, k) == commitments[i];
    }
  }

  lemma NewLeafDiffers(leaves: map<H256, H256>, commitments: seq<H256>, all: map<H256, H256>)
    requires commitments != [] && Fresh(leaves, commitments) && IsUnion(leaves, commitments, all) && ZERO_HASH !in commitments
    ensures LeafValue(all, commitments[0]) != LeafValue(leaves, commitments[0])
  {
    assert commitments[0] in commitments;
  }

  /** One of the two witnesses of a state: it follows the full tree exactly when it opens the transaction's own keys
      with a multi-proof, or there are none. */
  lemma FollowsIff(merge: Merge, leaves: map<H256, H256>, w: Witness, commitments: seq<H256>, all: map<H256, H256>)
    requires forall k <- leaves :: leaves[k] != ZERO_HASH
    requires |w.values| == |commitments| && AllZero(w)
    requires ComputeRoot(merge, w) == Ok(Root(merge, leaves)) && !CollidesWith(merge, leaves, w)
    requires Fresh(leaves, commitments) && IsUnion(leaves, commitments, all) && ZERO_HASH !in commitments
    requires !TreesCollide(merge, TreeAfter(leaves, w, commitments), all)
    ensures ComputeRoot(merge, Overwritten(w, commitments)) == Ok(Root(merge, all)) <==> WitnessFor(w, commitments)
  {
    RootAfter(merge, leaves, w, commitments);
    if WitnessFor(w, commitments) {
      ForeignWitness(merge, leaves, w, commitments, all);
    }
    if Root(merge, TreeAfter(leaves, w, commitments)) == Root(merge, all) {
      RootBinds(merge, TreeAfter(leaves, w, commitments), all, []);
      if w.proof.Opening? {
        OpenedKeysAreNew(merge, leaves, w);
        SameKeys(leaves, w, commitments, all);
      } else if commitments != [] {
        NewLeafDiffers(leaves, commitments, all);
      }
    }
  }

  lemma OpenedKeysAreNew(merge: Merge, leaves: map<H256, H256>, w: Witness)
    requires forall k <- leaves :: leaves[k] != ZERO_HASH
    requires w.proof.Opening? && AllZero(w)
    requires ComputeRoot(merge, w) == Ok(Root(merge, leaves)) && !CollidesWith(merge, leaves, w)
    ensures forall k <- Keys(w.values) :: k !in leaves
  {
    OpeningBinds(merge, leaves, w.proof.tree, [], w.values);
    forall k <- Keys(w.values)
      ensures k !in leaves
    {
      var i :| 0 <= i < |w.values| && Keys(w.values)[i] == k;
      assert w.values[i] in w.values && w.values[i].key == k;
    }
  }

  lemma RealKeysAreNotZero(keys: seq<H256>, isNullifier: bool)
    ensures ZERO_HASH !in FilterKeys(keys, isNullifier)
  {
  }

  /** The trees that the two witnesses of a state and the full state commit to afterwards do not collide. */
  ghost predicate Apart(merge: Merge, ledger: Ledger, state: ZkVmState, payload: UtxoPayload, after: Ledger)
    requires |state.created.values| == |Creates(payload)| && |state.nullified.values| == |Spends(payload)|
  {
    && !TreesCollide(merge, TreeAfter(ledger.notes, state.created, Creates(payload)), after.notes)
    && !TreesCollide(merge, TreeAfter(ledger.nullified, state.nullified, Spends(payload)), after.nullified)
  }

  /** What a witness is about decides: a witness state that commits to the full state and executes is followed by the
      full state, which applies the payload too and commits alike, if and only if both of its witnesses are about the
      transaction's own keys and open them with a multi-proof where there are any. */
  lemma SoundIff(merge: Merge, ledger: Ledger, state: ZkVmState, tx: Calldata, payload: UtxoPayload)
    requires WellFormed(ledger)
    requires PayloadOf(state.config, tx) == Ok(payload)
    requires Commit(merge, state) == Ok(Commitment(merge, ledger)) && Execute(state, tx).Ok?
    requires !CollidesWith(merge, ledger.notes, state.created) && !CollidesWith(merge, ledger.nullified, state.nullified)
    requires Apart(merge, ledger, state, payload, ApplyCommitments(merge, ledger, payload).0)
    ensures var (after, ok) := ApplyCommitments(merge, ledger, payload);
            (ok && Commit(merge, Execute(state, tx).value) == Ok(Commitment(merge, after)))
            <==> WitnessFor(state.created, Creates(payload)) && WitnessFor(state.nullified, Spends(payload))
  {
    var (after, ok) := ApplyCommitments(merge, ledger, payload);
    CommittedRoots(merge, ledger, state);
    ExecuteOverwritesWitness(state, tx, payload);
    if WitnessFor(state.created, Creates(payload)) && WitnessFor(state.nullified, Spends(payload)) {
      AnyWitnessIsSound(merge, ledger, state, tx, payload);
    }
    if ok {
      AppliedIff(merge, ledger, payload);
      AppliedStores(merge, ledger, payload);
      RealKeysAreNotZero(payload.created, false);
      RealKeysAreNotZero(payload.nullified, true);
      FollowsIff(merge, ledger.notes, state.created, Creates(payload), after.notes);
      FollowsIff(merge, ledger.nullified, state.nullified, Spends(payload), after.nullified);
      CommitsToBoth(merge, ledger, state, payload, after);
    }
  }

  lemma CommittedRoots(merge: Merge, ledger: Ledger, state: ZkVmState)
    requires Commit(merge, state) == Ok(Commitment(merge, ledger))
    ensures ComputeRoot(merge, state.created) == Ok(Root(merge, ledger.notes))
    ensures ComputeRoot(merge, state.nullified) == Ok(Root(merge, ledger.nullified))
  {
    SnapshotInjective(ComputeRoot(merge, state.created).value, ComputeRoot(merge, state.nullified).value,
                      Root(merge, ledger.notes), Root(merge, ledger.nullified));
  }

  lemma CommitsToBoth(merge: Merge, ledger: Ledger, state: ZkVmState, payload: UtxoPayload, after: Ledger)
    requires |state.created.values| == |Creates(payload)| && |state.nullified.values| == |Spends(payload)|
    ensures var executed := state.(created := Overwritten(state.created, Creates(payload)),
                                   nullified := Overwritten(state.nullified, Spends(payload)));
            Commit(merge, executed) == Ok(Commitment(merge, after))
            <==> ComputeRoot(merge, executed.created) == Ok(Root(merge, after.notes))
                 && ComputeRoot(merge, executed.nullified) == Ok(Root(merge, after.nullified))
  {
    var executed := state.(created := Overwritten(state.created, Creates(payload)),
                           nullified := Overwritten(state.nullified, Spends(payload)));
    if Commit(merge, executed) == Ok(Commitment(merge, after)) {
      CommittedRoots(merge, after, executed);
    }
  }

  // ---- witnesses that are accepted without being sound ----

  function ZeroLeaves(keys: seq<H256>): (values: seq<WitnessLeaf>)
    ensures |values| == |keys|
    ensures forall leaf <- values :: leaf.value == ZERO_HASH
  {
    seq(|keys|, i requires 0 <= i < |keys| => WitnessLeaf(keys[i], ZERO_HASH))
  }

  /** Zero leaves under a root that is merely recorded. */
  function Unopened(merge: Merge, leaves: map<H256, H256>, keys: seq<H256>): Witness {
    Witness(ZeroLeaves(keys), CurrentRootHash(Root(merge, leaves)))
  }

  /** Leaves with a recorded root prove nothing: for every state and every transaction whose blob checks pass, such
      witnesses at the transaction's own keys commit to the state, execute, and still commit to it afterwards, as if
      nothing had been spent or created. */
  lemma UnopenedIsAccepted(merge: Merge, config: ContractConfig, ledger: Ledger, roots: seq<Fingerprint>, tx: Calldata,
                           payload: UtxoPayload)
    requires PayloadOf(config, tx) == Ok(payload)
    requires ParseCalldata(tx).Ok? && CheckNoirBlobs(config, roots, tx, ParseCalldata(tx).value).Ok?
    ensures var state := ZkVmState(Unopened(merge, ledger.notes, Creates(payload)),
                                   Unopened(merge, ledger.nullified, Spends(payload)), config, roots);
            && Commit(merge, state) == Ok(Commitment(merge, ledger)) && Execute(state, tx).Ok?
            && Commit(merge, Execute(state, tx).value) == Ok(Commitment(merge, ledger))
  {
    var state := ZkVmState(Unopened(merge, ledger.notes, Creates(payload)),
                           Unopened(merge, ledger.nullified, Spends(payload)), config, roots);
    ExecuteOverwritesWitness(state, tx, payload);
  }

  /** In particular when a nullifier was spent before, which the full state rejects. */
  lemma SpentNullifierIsAccepted(merge: Merge, config: ContractConfig, ledger: Ledger, roots: seq<Fingerprint>, tx: Calldata,
                                 payload: UtxoPayload, spent: H256)
    requires PayloadOf(config, tx) == Ok(payload)
    requires ParseCalldata(tx).Ok? && CheckNoirBlobs(config, roots, tx, ParseCalldata(tx).value).Ok?
    requires spent in Spends(payload) && spent in ledger.nullified
    ensures !ApplyCommitments(merge, ledger, payload).1
    ensures var state := ZkVmState(Unopened(merge, ledger.notes, Creates(payload)),
                                   Unopened(merge, ledger.nullified, Spends(payload)), config, roots);
            Commit(merge, state) == Ok(Commitment(merge, ledger)) && Execute(state, tx).Ok?
  {
    AppliedIff(merge, ledger, payload);
    UnopenedIsAccepted(merge, config, ledger, roots, tx, payload);
  }

  /** The other family: leaves are paired with commitments by position and their keys are not looked at, so opening
      any other new keys, as many of them, is accepted just as well, spent nullifiers included. */
  lemma OtherKeysAreAccepted(merge: Merge, config: ContractConfig, ledger: Ledger, roots: seq<Fingerprint>, tx: Calldata,
                             payload: UtxoPayload, created: seq<H256>, nullified: seq<H256>)
    requires WellFormed(ledger) && PayloadOf(config, tx) == Ok(payload)
    requires ParseCalldata(tx).Ok? && CheckNoirBlobs(config, roots, tx, ParseCalldata(tx).value).Ok?
    requires |created| == |Creates(payload)| && |nullified| == |Spends(payload)|
    requires Fresh(ledger.notes, created) && Fresh(ledger.nullified, nullified)
    ensures var state := ZkVmState(BuildWitness(merge, ledger.notes, created),
                                   BuildWitness(merge, ledger.nullified, nullified), config, roots);
            && Commit(merge, state) == Ok(Commitment(merge, ledger)) && Execute(state, tx).Ok?
            && (WitnessFor(state.created, Creates(payload)) <==> created == Creates(payload))
            && (WitnessFor(state.nullified, Spends(payload)) <==> nullified == Spends(payload))
  {
    var state := ZkVmState(BuildWitness(merge, ledger.notes, created),
                           BuildWitness(merge, ledger.nullified, nullified), config, roots);
    WitnessGivesRoot(merge, ledger.notes, created);
    WitnessGivesRoot(merge, ledger.nullified, nullified);
    WitnessZeroIff(merge, ledger.notes, created);
    WitnessZeroIff(merge, ledger.nullified, nullified);
    KeysOfLeaves(ledger.notes, created);
    KeysOfLeaves(ledger.nullified, nullified);
    ExecuteOverwritesWitness(state, tx, payload);
  }

  /** The blob checks look for one root in the window. */
  lemma RootNamed(config: ContractConfig, roots: seq<Fingerprint>, tx: Calldata, callees: seq<Blob>) returns (f: Fingerprint)
    requires CheckNoirBlobs(config, roots, tx, callees).Ok?
    ensures f in roots
    ensures forall window :: f in window ==> CheckNoirBlobs(config, window, tx, callees).Ok?
  {
    var inclusion := PositionOf(callees, config.smtInclName).value;
    var payload := DecodeVec(DecodeStructured(callees[inclusion].data).value.parameters).value;
    f := ParseSmtInclBlob(payload).value.notesRoot;
  }

  /** The window of roots is not part of the commitment: whatever notes root a transaction names, a state with some
      window accepts it if it would be accepted with any other, and commits to the same full state. */
  lemma WindowIsFree(merge: Merge, state: ZkVmState, tx: Calldata, roots: seq<Fingerprint>)
    requires Execute(state.(roots := roots), tx).Ok?
    ensures exists f: Fingerprint :: f in roots
              && Execute(state.(roots := seq(MAX_ROOTS, _ => f)), tx).Ok?
              && Commit(merge, state.(roots := seq(MAX_ROOTS, _ => f))) == Commit(merge, state)
  {
    var f := RootNamed(state.config, roots, tx, ParseCalldata(tx).value);
    var window := seq(MAX_ROOTS, _ => f);
    assert window[0] == f;
    assert Execute(state.(roots := window), tx).Ok?;
  }
}
