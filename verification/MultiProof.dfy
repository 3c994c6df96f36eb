/** Merkle proofs for several leaves at once: a tree pruned to the paths of the proven keys. */
module MultiProof {
  import opened Wrappers
  import opened Sequences
  import opened Bytes
  import opened SparseMerkle

  datatype WitnessLeaf = WitnessLeaf(key: H256, value: H256)

  /** `Stub` stands for a subtree without proven leaves, `Hole` for a leaf supplied by the verifier. */
  datatype Pruned = Stub(digest: H256) | Hole | Fork(left: Pruned, right: Pruned)

  function Keys(entries: seq<WitnessLeaf>): (keys: seq<H256>)
    ensures |keys| == |entries|
    ensures forall i | 0 <= i < |entries| :: keys[i] == entries[i].key
  {
    seq(|entries|, i requires 0 <= i < |entries| => entries[i].key)
  }

  /** The keys that turn to side `turn` at `level`, in order. */
  function KeysOnSide(keys: seq<H256>, level: nat, turn: bool): seq<H256>
    requires level < DEPTH
  {
    if keys == [] then []
    else if Bits(keys[0])[level] == turn then [keys[0]] + KeysOnSide(keys[1..], level, turn)
    else KeysOnSide(keys[1..], level, turn)
  }

  function OnSide(entries: seq<WitnessLeaf>, level: nat, turn: bool): seq<WitnessLeaf>
    requires level < DEPTH
  {
    if entries == [] then []
    else if Bits(entries[0].key)[level] == turn then [entries[0]] + OnSide(entries[1..], level, turn)
    else OnSide(entries[1..], level, turn)
  }

  lemma {:induction false} SideKeys(keys: seq<H256>, level: nat, turn: bool)
    requires level < DEPTH
    ensures forall k :: k in KeysOnSide(keys, level, turn) <==> k in keys && Bits(k)[level] == turn
    ensures Distinct(keys) ==> Distinct(KeysOnSide(keys, level, turn))
  {
    if keys != [] {
      SideKeys(keys[1..], level, turn);
      assert keys == [keys[0]] + keys[1..];
    }
  }

  lemma {:induction false} SideEntries(entries: seq<WitnessLeaf>, level: nat, turn: bool)
    requires level < DEPTH
    ensures forall e :: e in OnSide(entries, level, turn) <==> e in entries && Bits(e.key)[level] == turn
  {
    if entries != [] {
      SideEntries(entries[1..], level, turn);
      assert entries == [entries[0]] + entries[1..];
    }
  }

  lemma {:induction false} KeysOfSide(entries: seq<WitnessLeaf>, level: nat, turn: bool)
    requires level < DEPTH
    ensures Keys(OnSide(entries, level, turn)) == KeysOnSide(Keys(entries), level, turn)
  {
    if entries != [] {
      var rest := OnSide(entries[1..], level, turn);
      KeysOfSide(entries[1..], level, turn);
      assert Keys(entries)[1..] == Keys(entries[1..]);
      assert Keys([entries[0]] + rest) == [entries[0].key] + Keys(rest);
    }
  }

  /** The proof for `keys`, all of them below `p`. */
  function Prove(merge: Merge, leaves: map<H256, H256>, p: Path, keys: seq<H256>): Pruned
    decreases DEPTH - |p|
  {
    if keys == [] then
      Stub(Node(merge, leaves, p))
    else if |p| == DEPTH then
      Hole
    else
      Fork(Prove(merge, leaves, p + [false], KeysOnSide(keys, |p|, false)),
           Prove(merge, leaves, p + [true], KeysOnSide(keys, |p|, true)))
  }

  /** Fills the leaves in and folds the proof up. The leaves must match the proof one for one. */
  function ComputeNode(merge: Merge, proof: Pruned, p: Path, entries: seq<WitnessLeaf>): Result<H256, string>
    decreases proof
  {
    match proof
    case Stub(digest) =>
      if entries == [] then Ok(digest) else Err("leaf below a pruned subtree")
    case Hole =>
      if |p| == DEPTH && |entries| == 1 then Ok(entries[0].value) else Err("leaf does not match the proof")
    case Fork(left, right) =>
      if |p| == DEPTH then Err("proof too deep")
      else
        var l :- ComputeNode(merge, left, p + [false], OnSide(entries, |p|, false));
        var r :- ComputeNode(merge, right, p + [true], OnSide(entries, |p|, true));
        Ok(merge(p, l, r))
  }

  ghost predicate Below(entries: seq<WitnessLeaf>, p: Path) {
    forall e <- entries :: p <= Bits(e.key)
  }

  /** `updated` holds the entries' values below `p`, and the values of `leaves` at every other key there. */
  ghost predicate Rewrites(leaves: map<H256, H256>, entries: seq<WitnessLeaf>, updated: map<H256, H256>, p: Path) {
    && (forall e <- entries :: LeafValue(updated, e.key) == e.value)
    && (forall k: H256 :: p <= Bits(k) && k !in Keys(entries) ==> LeafValue(updated, k) == LeafValue(leaves, k))
  }

  lemma BelowSide(entries: seq<WitnessLeaf>, p: Path, turn: bool)
    requires |p| < DEPTH
    requires Below(entries, p)
    ensures Below(OnSide(entries, |p|, turn), p + [turn])
  {
    SideEntries(entries, |p|, turn);
  }

  lemma RewritesSide(leaves: map<H256, H256>, entries: seq<WitnessLeaf>, updated: map<H256, H256>, p: Path, turn: bool)
    requires |p| < DEPTH
    requires Rewrites(leaves, entries, updated, p)
    ensures Rewrites(leaves, OnSide(entries, |p|, turn), updated, p + [turn])
  {
    var side := OnSide(entries, |p|, turn);
    SideEntries(entries, |p|, turn);
    SideKeys(Keys(entries), |p|, turn);
    KeysOfSide(entries, |p|, turn);
    forall k: H256 | p + [turn] <= Bits(k) && k !in Keys(side)
      ensures p <= Bits(k) && k !in Keys(entries)
    {
      assert Bits(k)[|p|] == (p + [turn])[|p|] == turn;
      assert p <= p + [turn];
    }
  }

  /** At a leaf, distinct entries below it are one entry, and it carries the leaf's value. */
  lemma SingleLeaf(leaves: map<H256, H256>, p: Path, entries: seq<WitnessLeaf>, updated: map<H256, H256>)
    requires |p| == DEPTH && entries != []
    requires Distinct(Keys(entries))
    requires Below(entries, p)
    requires Rewrites(leaves, entries, updated, p)
    ensures |entries| == 1 && entries[0].value == LeafValue(updated, KeyOf(p))
  {
    assert entries[0] in entries && Bits(entries[0].key) == p;
    KeyOfBits(entries[0].key);
    if |entries| > 1 {
      assert entries[1] in entries && Bits(entries[1].key) == p;
      BitsInjective(entries[0].key, entries[1].key);
      assert false;
    }
  }

  /** Multi-proof correctness: whatever values are filled in at the proven keys, the proof folds to
      the digest of the tree in which exactly those leaves have those values. */
  lemma {:induction false} ProofFoldsToNode(merge: Merge, leaves: map<H256, H256>, p: Path, entries: seq<WitnessLeaf>,
                                            updated: map<H256, H256>)
    requires Distinct(Keys(entries))
    requires Below(entries, p)
    requires Rewrites(leaves, entries, updated, p)
    ensures ComputeNode(merge, Prove(merge, leaves, p, Keys(entries)), p, entries) == Ok(Node(merge, updated, p))
    decreases DEPTH - |p|, 1
  {
    if entries == [] {
      NodeFrame(merge, leaves, updated, p);
    } else if |p| == DEPTH {
      SingleLeaf(leaves, p, entries, updated);
    } else {
      ProofFoldsToSide(merge, leaves, p, entries, updated, false);
      ProofFoldsToSide(merge, leaves, p, entries, updated, true);
    }
  }

  lemma {:induction false} ProofFoldsToSide(merge: Merge, leaves: map<H256, H256>, p: Path, entries: seq<WitnessLeaf>,
                                            updated: map<H256, H256>, turn: bool)
    requires |p| < DEPTH
    requires Distinct(Keys(entries))
    requires Below(entries, p)
    requires Rewrites(leaves, entries, updated, p)
    ensures ComputeNode(merge, Prove(merge, leaves, p + [turn], KeysOnSide(Keys(entries), |p|, turn)), p + [turn],
                        OnSide(entries, |p|, turn))
         == Ok(Node(merge, updated, p + [turn]))
    decreases DEPTH - |p|, 0
  {
    KeysOfSide(entries, |p|, turn);
    SideKeys(Keys(entries), |p|, turn);
    BelowSide(entries, p, turn);
    RewritesSide(leaves, entries, updated, p, turn);
    ProofFoldsToNode(merge, leaves, p + [turn], OnSide(entries, |p|, turn), updated);
  }

  /** Somewhere along the opening, a pair of digests that differs from the tree's own pair of children
      merges to the same digest: evidence against the hash, found in this opening. */
  ghost predicate Collision(merge: Merge, leaves: map<H256, H256>, proof: Pruned, p: Path, entries: seq<WitnessLeaf>)
    decreases proof
  {
    proof.Fork? && |p| < DEPTH &&
    var lower, upper := OnSide(entries, |p|, false), OnSide(entries, |p|, true);
    var l, r := ComputeNode(merge, proof.left, p + [false], lower), ComputeNode(merge, proof.right, p + [true], upper);
    || (l.Ok? && r.Ok? && (l.value, r.value) != Children(merge, leaves, p)
        && merge(p, l.value, r.value) == Node(merge, leaves, p))
    || Collision(merge, leaves, proof.left, p + [false], lower)
    || Collision(merge, leaves, proof.right, p + [true], upper)
  }

  /** Multi-proof binding: any proof, however it was produced, that opens to the tree's digest opens the
      proven keys to the tree's own leaves, or exhibits a collision. */
  lemma {:induction false} OpeningBinds(merge: Merge, leaves: map<H256, H256>, proof: Pruned, p: Path,
                                        entries: seq<WitnessLeaf>)
    requires Below(entries, p)
    requires ComputeNode(merge, proof, p, entries) == Ok(Node(merge, leaves, p))
    requires !Collision(merge, leaves, proof, p, entries)
    ensures forall e <- entries :: e.value == LeafValue(leaves, e.key)
    decreases proof
  {
    match proof
    case Stub(_) =>
    case Hole =>
      assert entries[0] in entries && Bits(entries[0].key) == p;
      KeyOfBits(entries[0].key);
    case Fork(left, right) =>
      BelowSide(entries, p, false);
      BelowSide(entries, p, true);
      OpeningBinds(merge, leaves, left, p + [false], OnSide(entries, |p|, false));
      OpeningBinds(merge, leaves, right, p + [true], OnSide(entries, |p|, true));
      SideEntries(entries, |p|, false);
      SideEntries(entries, |p|, true);
  }

  /** ... and filling other values into the same proof folds to the tree with exactly those leaves rewritten. */
  lemma {:induction false} OpeningUpdates(merge: Merge, leaves: map<H256, H256>, proof: Pruned, p: Path,
                                          entries: seq<WitnessLeaf>, rewritten: seq<WitnessLeaf>,
                                          updated: map<H256, H256>)
    requires Below(entries, p) && Keys(rewritten) == Keys(entries)
    requires ComputeNode(merge, proof, p, entries) == Ok(Node(merge, leaves, p))
    requires !Collision(merge, leaves, proof, p, entries)
    requires Rewrites(leaves, rewritten, updated, p)
    ensures ComputeNode(merge, proof, p, rewritten) == Ok(Node(merge, updated, p))
    decreases proof, 0
  {
    assert |rewritten| == |Keys(rewritten)| == |entries|;
    match proof
    case Stub(_) =>
      NodeFrame(merge, leaves, updated, p);
    case Hole =>
      assert rewritten[0].key == Keys(rewritten)[0] == entries[0].key;
      assert entries[0] in entries && Bits(entries[0].key) == p;
      KeyOfBits(entries[0].key);
    case Fork(left, right) =>
      OpeningUpdatesSide(merge, leaves, left, p, entries, rewritten, updated, false);
      OpeningUpdatesSide(merge, leaves, right, p, entries, rewritten, updated, true);
  }

  lemma {:induction false} OpeningUpdatesSide(merge: Merge, leaves: map<H256, H256>, proof: Pruned, p: Path,
                                              entries: seq<WitnessLeaf>, rewritten: seq<WitnessLeaf>,
                                              updated: map<H256, H256>, turn: bool)
    requires |p| < DEPTH
    requires Below(entries, p) && Keys(rewritten) == Keys(entries)
    requires ComputeNode(merge, proof, p + [turn], OnSide(entries, |p|, turn)) == Ok(Node(merge, leaves, p + [turn]))
    requires !Collision(merge, leaves, proof, p + [turn], OnSide(entries, |p|, turn))
    requires Rewrites(leaves, rewritten, updated, p)
    ensures ComputeNode(merge, proof, p + [turn], OnSide(rewritten, |p|, turn)) == Ok(Node(merge, updated, p + [turn]))
    decreases proof, 1
  {
    BelowSide(entries, p, turn);
    RewritesSide(leaves, rewritten, updated, p, turn);
    KeysOfSide(entries, |p|, turn);
    KeysOfSide(rewritten, |p|, turn);
    OpeningUpdates(merge, leaves, proof, p + [turn], OnSide(entries, |p|, turn), OnSide(rewritten, |p|, turn), updated);
  }

  /** A proof opens every leaf at most once. */
  lemma {:induction false} OpeningDistinct(merge: Merge, proof: Pruned, p: Path, entries: seq<WitnessLeaf>)
    requires ComputeNode(merge, proof, p, entries).Ok?
    ensures Distinct(Keys(entries))
    decreases proof
  {
    if proof.Fork? {
      OpeningDistinct(merge, proof.left, p + [false], OnSide(entries, |p|, false));
      OpeningDistinct(merge, proof.right, p + [true], OnSide(entries, |p|, true));
      KeysOfSide(entries, |p|, false);
      KeysOfSide(entries, |p|, true);
      SidesDistinct(Keys(entries), |p|);
    }
  }

  lemma SidesDistinct(keys: seq<H256>, level: nat)
    requires level < DEPTH
    requires Distinct(KeysOnSide(keys, level, false)) && Distinct(KeysOnSide(keys, level, true))
    ensures Distinct(keys)
  {
    forall i, j | 0 <= i < j < |keys|
      ensures keys[i] != keys[j]
    {
      SideCount(keys, level, keys[i]);
      if keys[i] == keys[j] {
        RepeatedCount(keys, i, j);
        DistinctCount(KeysOnSide(keys, level, Bits(keys[i])[level]), keys[i]);
        assert false;
      }
    }
  }

  lemma {:induction false} SideCount(keys: seq<H256>, level: nat, k: H256)
    requires level < DEPTH
    ensures multiset(KeysOnSide(keys, level, Bits(k)[level]))[k] == multiset(keys)[k]
  {
    if keys != [] {
      SideCount(keys[1..], level, k);
      assert keys == [keys[0]] + keys[1..];
    }
  }

  lemma RepeatedCount(keys: seq<H256>, i: nat, j: nat)
    requires i < j < |keys| && keys[i] == keys[j]
    ensures multiset(keys)[keys[i]] >= 2
  {
    assert keys == keys[..j] + [keys[j]] + keys[j + 1..];
    assert keys[i] in keys[..j];
  }

  lemma {:induction false} DistinctCount(keys: seq<H256>, k: H256)
    requires Distinct(keys)
    ensures multiset(keys)[k] <= 1
  {
    if keys != [] {
      assert keys == [keys[0]] + keys[1..];
      DistinctCount(keys[1..], k);
    }
  }
}
