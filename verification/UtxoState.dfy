/** The full state of the UTXO contract: every note commitment, every spent nullifier, and the
    fingerprints of the recent notes roots. */
module UtxoState {
  import opened Wrappers
  import opened Sequences
  import opened Bytes
  import opened SparseMerkle
  import opened Blobs

  const MAX_ROOTS: nat := 1000

  /** The hash of two zero elements: the nullifier of the note that pads a transaction. */
  const PADDING_NULLIFIER: H256 := PADDING_LOW + PADDING_HIGH

  const PADDING_LOW: seq<byte> := [
    0x0b, 0x63, 0xa5, 0x37, 0x87, 0x02, 0x1a, 0x4a, 0x96, 0x2a, 0x45, 0x2c, 0x29, 0x21, 0xb3, 0x66
  ]

  const PADDING_HIGH: seq<byte> := [
    0x3a, 0xff, 0x1f, 0xfd, 0x8d, 0x55, 0x10, 0x54, 0x0f, 0x8e, 0x65, 0x9e, 0x78, 0x29, 0x56, 0xf1
  ]

  /** A state as values: the leaves of both trees and the root window, newest first. */
  datatype Ledger = Ledger(notes: map<H256, H256>, nullified: map<H256, H256>, roots: seq<Fingerprint>)

  const EMPTY_LEDGER := Ledger(map[], map[], [])

  /** Zero stands for an absent note; the padding nullifier for an absent input. */
  predicate IsReal(k: H256, isNullifier: bool) {
    k != ZERO_HASH && !(isNullifier && k == PADDING_NULLIFIER)
  }

  function FilterKeys(keys: seq<H256>, isNullifier: bool): seq<H256> {
    if keys == [] then []
    else (if IsReal(keys[0], isNullifier) then [keys[0]] else []) + FilterKeys(keys[1..], isNullifier)
  }

  /** Inserts the real keys one by one and stops at the first that is already there.
      What was inserted before a failure stays. */
  function Record(leaves: map<H256, H256>, keys: seq<H256>, isNullifier: bool): (map<H256, H256>, bool)
    decreases |keys|
  {
    if keys == [] then (leaves, true)
    else if !IsReal(keys[0], isNullifier) then Record(leaves, keys[1..], isNullifier)
    else if keys[0] in leaves then (leaves, false)
    else Record(Put(leaves, keys[0], keys[0]), keys[1..], isNullifier)
  }

  /** Puts a fingerprint in front and forgets what exceeds the window. */
  function PushRoot(roots: seq<Fingerprint>, root: Fingerprint): seq<Fingerprint> {
    var pushed := [root] + roots;
    if |pushed| > MAX_ROOTS then pushed[..|pushed| - 1] else pushed
  }

  /** What is committed to: the notes root, then the nullifiers' root. */
  function Snapshot(notesRoot: H256, nullifiedRoot: H256): (bytes: seq<byte>)
    ensures |bytes| == 64 && bytes[..32] == notesRoot && bytes[32..] == nullifiedRoot
  {
    var first: seq<byte> := notesRoot;
    first + nullifiedRoot
  }

  function Commitment(merge: Merge, ledger: Ledger): seq<byte> {
    Snapshot(Root(merge, ledger.notes), Root(merge, ledger.nullified))
  }

  class HyliUtxoState {
    const notesTree: SMT
    const nullifiedTree: SMT
    var roots: seq<Fingerprint>

    ghost predicate Valid()
      reads this, notesTree, nullifiedTree
    {
      && notesTree != nullifiedTree
      && notesTree.Valid() && nullifiedTree.Valid()
      && notesTree.merge == nullifiedTree.merge
    }

    ghost function Merge(): Merge {
      notesTree.merge
    }

    ghost function View(): Ledger
      reads this, notesTree, nullifiedTree
    {
      Ledger(notesTree.leaves, nullifiedTree.leaves, roots)
    }

    constructor (merge: Merge)
      requires KeepsEmpty(merge)
      ensures Valid() && Merge() == merge
      ensures fresh(notesTree) && fresh(nullifiedTree)
      ensures View() == EMPTY_LEDGER
    {
      notesTree := new SMT(merge);
      nullifiedTree := new SMT(merge);
      roots := [];
    }

    method UpdateRoots()
      requires Valid()
      modifies this
      ensures Valid()
      ensures View() == old(View()).(roots := PushRoot(old(roots), FingerprintOf(Root(Merge(), notesTree.leaves))))
    {
      var newRoot := FingerprintOf(notesTree.root);
      roots := [newRoot] + roots;
      if |roots| > MAX_ROOTS {
        roots := roots[..|roots| - 1];
      }
    }

    method RecordCreated(commitments: seq<H256>) returns (r: Result<(), string>)
      requires Valid()
      modifies notesTree
      ensures Valid()
      ensures var (leaves, ok) := Record(old(notesTree.leaves), commitments, false);
              View() == old(View()).(notes := leaves) && (r.Ok? <==> ok)
    {
      ghost var outcome := Record(notesTree.leaves, commitments, false);
      for i := 0 to |commitments|
        invariant Valid() && View() == old(View()).(notes := notesTree.leaves)
        invariant Record(notesTree.leaves, commitments[i..], false) == outcome
      {
        var commitment := commitments[i];
        assert commitments[i..][1..] == commitments[i + 1..];
        if commitment == ZERO_HASH {
          continue;
        }
        if notesTree.Contains(commitment) {
          return Err("created note already exists in notes tree");
        }
        notesTree.UpdateLeaf(commitment, commitment);
      }
      return Ok(());
    }

    method RecordNullified(commitments: seq<H256>) returns (r: Result<(), string>)
      requires Valid()
      modifies nullifiedTree
      ensures Valid()
      ensures var (leaves, ok) := Record(old(nullifiedTree.leaves), commitments, true);
              View() == old(View()).(nullified := leaves) && (r.Ok? <==> ok)
    {
      ghost var outcome := Record(nullifiedTree.leaves, commitments, true);
      for i := 0 to |commitments|
        invariant Valid() && View() == old(View()).(nullified := nullifiedTree.leaves)
        invariant Record(nullifiedTree.leaves, commitments[i..], true) == outcome
      {
        var commitment := commitments[i];
        assert commitments[i..][1..] == commitments[i + 1..];
        if commitment == ZERO_HASH {
          continue;
        }
        if commitment == PADDING_NULLIFIER {
          continue;
        }
        if nullifiedTree.Contains(commitment) {
          return Err("note has already been nullified");
        }
        nullifiedTree.UpdateLeaf(commitment, commitment);
      }
      return Ok(());
    }

    method CommitmentBytes() returns (bytes: seq<byte>)
      requires Valid()
      ensures bytes == Commitment(Merge(), View())
      ensures |bytes| == 64 && bytes[..32] == Root(Merge(), notesTree.leaves) && bytes[32..] == Root(Merge(), nullifiedTree.leaves)
    {
      bytes := Snapshot(notesTree.root, nullifiedTree.root);
    }
  }

  /** Every stored leaf is a real key that holds itself. */
  ghost predicate SelfKeyed(leaves: map<H256, H256>, isNullifier: bool) {
    forall k <- leaves :: leaves[k] == k && IsReal(k, isNullifier)
  }

  ghost predicate WellFormed(ledger: Ledger) {
    && SelfKeyed(ledger.notes, false) && SelfKeyed(ledger.nullified, true)
    && |ledger.roots| <= MAX_ROOTS
  }

  /** The real keys of `keys`, stored under themselves on top of `leaves`. */
  ghost predicate IsUnion(leaves: map<H256, H256>, keys: seq<H256>, all: map<H256, H256>) {
    && (forall k :: k in all <==> k in leaves || k in keys)
    && (forall k <- leaves :: all[k] == leaves[k])
    && (forall k <- keys :: k !in leaves ==> all[k] == k)
  }

  ghost predicate Fresh(leaves: map<H256, H256>, keys: seq<H256>) {
    Distinct(keys) && forall k <- keys :: k !in leaves
  }

  /** Recording succeeds exactly when the real keys are pairwise different and all new, and then stores
      exactly those keys. */
  lemma {:induction false} RecordSucceedsIff(leaves: map<H256, H256>, keys: seq<H256>, isNullifier: bool)
    ensures Record(leaves, keys, isNullifier).1 <==> Fresh(leaves, FilterKeys(keys, isNullifier))
    ensures Record(leaves, keys, isNullifier).1 ==>
              IsUnion(leaves, FilterKeys(keys, isNullifier), Record(leaves, keys, isNullifier).0)
    decreases |keys|
  {
    if keys != [] {
      var rest := FilterKeys(keys[1..], isNullifier);
      if !IsReal(keys[0], isNullifier) {
        RecordSucceedsIff(leaves, keys[1..], isNullifier);
        assert FilterKeys(keys, isNullifier) == rest;
      } else if keys[0] !in leaves {
        var next := Put(leaves, keys[0], keys[0]);
        RecordSucceedsIff(next, keys[1..], isNullifier);
        FreshCons(leaves, keys[0], rest);
        assert FilterKeys(keys, isNullifier) == [keys[0]] + rest;
      } else {
        assert FilterKeys(keys, isNullifier) == [keys[0]] + rest;
        assert keys[0] in FilterKeys(keys, isNullifier);
      }
    }
  }

  lemma FreshCons(leaves: map<H256, H256>, key: H256, rest: seq<H256>)
    requires key !in leaves && key != ZERO_HASH
    ensures Fresh(leaves, [key] + rest) <==> Fresh(Put(leaves, key, key), rest)
  {
    var keys := [key] + rest;
    if Fresh(leaves, keys) {
      forall k <- rest
        ensures k !in Put(leaves, key, key)
      {
        var i :| 0 <= i < |rest| && rest[i] == k;
        assert keys[i + 1] == k && keys[0] == key;
      }
      forall i, j | 0 <= i < j < |rest|
        ensures rest[i] != rest[j]
      {
        assert keys[i + 1] == rest[i] && keys[j + 1] == rest[j];
      }
    }
    if Fresh(Put(leaves, key, key), rest) {
      forall i, j | 0 <= i < j < |keys|
        ensures keys[i] != keys[j]
      {
        assert keys[j] == rest[j - 1] && rest[j - 1] in rest;
        assert i > 0 ==> keys[i] == rest[i - 1];
      }
    }
  }

  /** Recording, failed or not, only adds real keys that hold themselves and never removes a leaf. */
  lemma {:induction false} RecordKeepsLeaves(leaves: map<H256, H256>, keys: seq<H256>, isNullifier: bool)
    requires SelfKeyed(leaves, isNullifier)
    ensures var recorded := Record(leaves, keys, isNullifier).0;
            SelfKeyed(recorded, isNullifier) && leaves.Keys <= recorded.Keys
    decreases |keys|
  {
    if keys != [] {
      if !IsReal(keys[0], isNullifier) {
        RecordKeepsLeaves(leaves, keys[1..], isNullifier);
      } else if keys[0] !in leaves {
        RecordKeepsLeaves(Put(leaves, keys[0], keys[0]), keys[1..], isNullifier);
      }
    }
  }

  /** A failed recording changes nothing exactly when the very first real key was already there. */
  lemma {:induction false} FailedRecordUnchangedIff(leaves: map<H256, H256>, keys: seq<H256>, isNullifier: bool)
    requires SelfKeyed(leaves, isNullifier)
    requires !Record(leaves, keys, isNullifier).1
    ensures FilterKeys(keys, isNullifier) != []
    ensures Record(leaves, keys, isNullifier).0 == leaves <==> FilterKeys(keys, isNullifier)[0] in leaves
  {
    if !IsReal(keys[0], isNullifier) {
      FailedRecordUnchangedIff(leaves, keys[1..], isNullifier);
    } else if keys[0] !in leaves {
      var next := Put(leaves, keys[0], keys[0]);
      RecordKeepsLeaves(next, keys[1..], isNullifier);
      assert keys[0] in Record(next, keys[1..], isNullifier).0;
    }
  }
}
