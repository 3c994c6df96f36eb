/** Storing a sparse Merkle tree as its root and leaves and rebuilding it, and the sibling list that
    proves one leaf to the inclusion circuit. */
module SmtCodec {
  import opened Wrappers
  import opened Sequences
  import opened Bytes
  import opened SparseMerkle

  /** `order` lists every stored key once. The order itself is up to the hash map. */
  ghost predicate Enumerates(order: seq<H256>, leaves: map<H256, H256>) {
    (forall k :: k in order <==> k in leaves) && Distinct(order)
  }

  function LeafRecord(key: seq<byte>, value: seq<byte>): seq<byte> {
    key + value
  }

  function EncodeLeaves(leaves: map<H256, H256>, order: seq<H256>): seq<byte>
    requires forall k <- order :: k in leaves
  {
    if order == [] then [] else LeafRecord(order[0], leaves[order[0]]) + EncodeLeaves(leaves, order[1..])
  }

  /** The stored form; the number of leaves is cut to 32 bits. */
  function Encode(root: H256, leaves: map<H256, H256>, order: seq<H256>): seq<byte>
    requires forall k <- order :: k in leaves
  {
    root + LittleEndian(|leaves|, 4) + EncodeLeaves(leaves, order)
  }

  lemma {:induction false} EncodedLength(leaves: map<H256, H256>, order: seq<H256>)
    requires forall k <- order :: k in leaves
    ensures |EncodeLeaves(leaves, order)| == 64 * |order|
  {
    if order != [] {
      EncodedLength(leaves, order[1..]);
    }
  }

  lemma {:induction false} EncodedLeafAt(leaves: map<H256, H256>, order: seq<H256>, i: nat)
    requires (forall k <- order :: k in leaves) && i < |order|
    ensures |EncodeLeaves(leaves, order)| == 64 * |order|
    ensures EncodeLeaves(leaves, order)[64 * i..64 * i + 32] == order[i]
    ensures EncodeLeaves(leaves, order)[64 * i + 32..64 * i + 64] == leaves[order[i]]
  {
    var first, rest := LeafRecord(order[0], leaves[order[0]]), EncodeLeaves(leaves, order[1..]);
    if i > 0 {
      EncodedLeafAt(leaves, order[1..], i - 1);
      SliceBeyond(first, rest, 64 * i, 64 * i + 32);
      SliceBeyond(first, rest, 64 * i + 32, 64 * i + 64);
    } else {
      EncodedLength(leaves, order[1..]);
      assert (first + rest)[..32] == order[0] && (first + rest)[32..64] == leaves[order[0]];
    }
  }

  /** The stored bytes: the root, the number of leaves, and each leaf's key followed by its value. */
  lemma StoredBytes(root: H256, leaves: map<H256, H256>, order: seq<H256>, i: nat)
    requires (forall k <- order :: k in leaves) && i < |order|
    ensures var bytes := Encode(root, leaves, order);
            && |bytes| == 36 + 64 * |order| && bytes[..32] == root && bytes[32..36] == LittleEndian(|leaves|, 4)
            && bytes[36 + 64 * i..36 + 64 * i + 32] == order[i]
            && bytes[36 + 64 * i + 32..36 + 64 * i + 64] == leaves[order[i]]
  {
    var body, bytes := EncodeLeaves(leaves, order), Encode(root, leaves, order);
    EncodedLeafAt(leaves, order, i);
    assert bytes[36..] == body;
    assert bytes[36 + 64 * i..36 + 64 * i + 32] == body[64 * i..64 * i + 32];
    assert bytes[36 + 64 * i + 32..36 + 64 * i + 64] == body[64 * i + 32..64 * i + 64];
  }

  /** Reads `count` leaves, putting each into `built`; also returns the bytes left over. */
  function DecodeLeaves(bytes: seq<byte>, count: nat, built: map<H256, H256>): Option<(map<H256, H256>, seq<byte>)>
    decreases count
  {
    if count == 0 then Some((built, bytes))
    else if |bytes| < 64 then None
    else DecodeLeaves(bytes[64..], count - 1, Put(built, bytes[..32], bytes[32..64]))
  }

  function Decode(merge: Merge, bytes: seq<byte>): Option<(map<H256, H256>, seq<byte>)> {
    if |bytes| < 36 then None
    else
      var decoded := DecodeLeaves(bytes[36..], FromLittleEndian(bytes[32..36]), map[]);
      if decoded.Some? && Root(merge, decoded.value.0) == bytes[..32] then decoded else None
  }

  /** Writes the tree, visiting the leaves in the order given. */
  method Serialize(tree: SMT, order: seq<H256>) returns (bytes: seq<byte>)
    requires tree.Valid()
    requires Enumerates(order, tree.leaves)
    ensures bytes == Encode(tree.root, tree.leaves, order)
  {
    bytes := tree.root + LittleEndian(|tree.leaves|, 4);
    ghost var header := bytes;
    var i := 0;
    while i < |order|
      invariant 0 <= i <= |order|
      invariant bytes + EncodeLeaves(tree.leaves, order[i..]) == header + EncodeLeaves(tree.leaves, order)
    {
      assert order[i..][1..] == order[i + 1..];
      var record := LeafRecord(order[i], tree.leaves[order[i]]);
      Regroup(bytes, record, EncodeLeaves(tree.leaves, order[i + 1..]));
      bytes := bytes + record;
      i := i + 1;
    }
    assert bytes + EncodeLeaves(tree.leaves, order[i..]) == bytes;
  }

  lemma DecodeNext(bytes: seq<byte>, count: nat, built: map<H256, H256>)
    requires count > 0 && |bytes| >= 64
    ensures DecodeLeaves(bytes, count, built) == DecodeLeaves(bytes[64..], count - 1, Put(built, bytes[..32], bytes[32..64]))
  {
  }

  /** Rebuilds a tree leaf by leaf and checks the recorded root. */
  method Deserialize(merge: Merge, bytes: seq<byte>) returns (tree: SMT, ok: bool, rest: seq<byte>)
    requires KeepsEmpty(merge)
    ensures fresh(tree) && tree.Valid() && tree.merge == merge
    ensures ok <==> Decode(merge, bytes).Some?
    ensures ok ==> Decode(merge, bytes) == Some((tree.leaves, rest))
  {
    tree := new SMT(merge);
    rest := bytes;
    if |bytes| < 36 {
      return tree, false, rest;
    }
    var count := FromLittleEndian(bytes[32..36]);
    rest := bytes[36..];
    ghost var decoded := DecodeLeaves(rest, count, map[]);
    while count > 0
      invariant fresh(tree) && tree.Valid() && tree.merge == merge
      invariant DecodeLeaves(rest, count, tree.leaves) == decoded
    {
      if |rest| < 64 {
        return tree, false, rest;
      }
      DecodeNext(rest, count, tree.leaves);
      tree.UpdateLeaf(rest[..32], rest[32..64]);
      rest, count := rest[64..], count - 1;
    }
    ok := tree.root == bytes[..32];
  }

  lemma {:induction false} DecodedLeaves(leaves: map<H256, H256>, order: seq<H256>, tail: seq<byte>, built: map<H256, H256>)
    requires forall k <- order :: k in leaves && leaves[k] != ZERO_HASH
    requires Distinct(order)
    ensures var decoded := DecodeLeaves(EncodeLeaves(leaves, order) + tail, |order|, built);
            && decoded.Some? && decoded.value.1 == tail
            && forall k: H256 :: LeafOf(decoded.value.0, k) == if k in order then Some(leaves[k]) else LeafOf(built, k)
  {
    if order == [] {
      assert EncodeLeaves(leaves, order) + tail == tail;
    } else {
      var key, value := order[0], leaves[order[0]];
      var bytes, rest := EncodeLeaves(leaves, order) + tail, EncodeLeaves(leaves, order[1..]) + tail;
      assert bytes == LeafRecord(key, value) + rest;
      assert bytes[..32] == key && bytes[32..64] == value && bytes[64..] == rest;
      DecodedLeaves(leaves, order[1..], tail, Put(built, key, value));
      assert order == [key] + order[1..];
    }
  }

  function LeafOf(leaves: map<H256, H256>, k: H256): Option<H256> {
    if k in leaves then Some(leaves[k]) else None
  }

  lemma {:induction false} DistinctSize(order: seq<H256>)
    requires Distinct(order)
    ensures |(set k | k in order)| == |order|
  {
    if order != [] {
      DistinctSize(order[1..]);
      assert (set k | k in order) == {order[0]} + (set k | k in order[1..]);
    }
  }

  lemma {:induction false} DecodedSize(bytes: seq<byte>, count: nat, built: map<H256, H256>)
    ensures var decoded := DecodeLeaves(bytes, count, built);
            decoded.Some? ==> |decoded.value.0| <= |built| + count
    decreases count
  {
    if count > 0 && |bytes| >= 64 {
      var key := bytes[..32];
      var next := Put(built, key, bytes[32..64]);
      assert next.Keys <= built.Keys + {key};
      SubsetSize(next.Keys, built.Keys + {key});
      assert |next| == |next.Keys| && |built| == |built.Keys|;
      DecodedSize(bytes[64..], count - 1, next);
    }
  }

  lemma {:induction false} SubsetSize(a: set<H256>, b: set<H256>)
    requires a <= b
    ensures |a| <= |b|
  {
    if a != {} {
      var x :| x in a;
      SubsetSize(a - {x}, b - {x});
    }
  }

  lemma DecodeEncoded(merge: Merge, root: H256, leaves: map<H256, H256>, order: seq<H256>, tail: seq<byte>,
                      decoded: Option<(map<H256, H256>, seq<byte>)>)
    requires forall k <- order :: k in leaves
    requires decoded == DecodeLeaves(EncodeLeaves(leaves, order) + tail, |leaves| % U32_LIMIT, map[])
    ensures Decode(merge, Encode(root, leaves, order) + tail)
            == if decoded.Some? && Root(merge, decoded.value.0) == root then decoded else None
  {
    var length := LittleEndian(|leaves|, 4);
    var body := EncodeLeaves(leaves, order) + tail;
    var bytes := Encode(root, leaves, order) + tail;
    assert bytes[..32] == root && bytes[32..36] == length && bytes[36..] == body;
    U32RoundTrip(|leaves|);
  }

  lemma AllLeavesDecoded(leaves: map<H256, H256>, order: seq<H256>, tail: seq<byte>)
    requires forall k <- leaves :: leaves[k] != ZERO_HASH
    requires Enumerates(order, leaves)
    ensures DecodeLeaves(EncodeLeaves(leaves, order) + tail, |leaves|, map[]) == Some((leaves, tail))
  {
    assert (set k | k in order) == leaves.Keys;
    DistinctSize(order);
    assert |order| == |leaves|;
    DecodedLeaves(leaves, order, tail, map[]);
    var decoded := DecodeLeaves(EncodeLeaves(leaves, order) + tail, |order|, map[]).value.0;
    forall k: H256
      ensures k in decoded <==> k in leaves
      ensures k in leaves ==> decoded[k] == leaves[k]
    {
      assert LeafOf(decoded, k) == LeafOf(leaves, k);
    }
    assert decoded == leaves;
  }

  lemma FittingRoundTrip(merge: Merge, leaves: map<H256, H256>, order: seq<H256>, tail: seq<byte>)
    requires forall k <- leaves :: leaves[k] != ZERO_HASH
    requires Enumerates(order, leaves) && |leaves| < U32_LIMIT
    ensures Decode(merge, Encode(Root(merge, leaves), leaves, order) + tail) == Some((leaves, tail))
  {
    AllLeavesDecoded(leaves, order, tail);
    assert |leaves| % U32_LIMIT == |leaves|;
    DecodeEncoded(merge, Root(merge, leaves), leaves, order, tail, Some((leaves, tail)));
  }

  /** A recorded root other than that of the leaves is rejected. */
  lemma DecodesIffRoot(merge: Merge, root: H256, leaves: map<H256, H256>, order: seq<H256>, tail: seq<byte>)
    requires forall k <- leaves :: leaves[k] != ZERO_HASH
    requires Enumerates(order, leaves) && |leaves| < U32_LIMIT
    ensures Decode(merge, Encode(root, leaves, order) + tail).Some? <==> root == Root(merge, leaves)
  {
    AllLeavesDecoded(leaves, order, tail);
    assert |leaves| % U32_LIMIT == |leaves|;
    DecodeEncoded(merge, root, leaves, order, tail, Some((leaves, tail)));
  }

  /** Too many leaves for the 32-bit count: whatever is decoded has fewer leaves than were written. */
  lemma TooManyLeaves(merge: Merge, leaves: map<H256, H256>, order: seq<H256>, tail: seq<byte>)
    requires Enumerates(order, leaves) && |leaves| >= U32_LIMIT
    ensures var decoded := Decode(merge, Encode(Root(merge, leaves), leaves, order) + tail);
            decoded.Some? ==> |decoded.value.0| < |leaves|
  {
    var count := |leaves| % U32_LIMIT;
    DecodeEncoded(merge, Root(merge, leaves), leaves, order, tail,
                  DecodeLeaves(EncodeLeaves(leaves, order) + tail, count, map[]));
    DecodedSize(EncodeLeaves(leaves, order) + tail, count, map[]);
  }

  /** A stored tree comes back with the same leaves, whatever order the leaves were written in,
      exactly when their number fits the 32-bit count. */
  lemma RoundTrip(merge: Merge, leaves: map<H256, H256>, order: seq<H256>, tail: seq<byte>)
    requires forall k <- leaves :: leaves[k] != ZERO_HASH
    requires Enumerates(order, leaves)
    ensures Decode(merge, Encode(Root(merge, leaves), leaves, order) + tail) == Some((leaves, tail))
       <==> |leaves| < U32_LIMIT
  {
    if |leaves| < U32_LIMIT {
      FittingRoundTrip(merge, leaves, order, tail);
    } else {
      TooManyLeaves(merge, leaves, order, tail);
    }
  }

  /** The sibling of the node `height` levels above `key`'s leaf. */
  function SiblingPath(key: H256, height: nat): Path
    requires height < DEPTH
  {
    var level := DEPTH - 1 - height;
    Bits(key)[..level] + [!Bits(key)[level]]
  }

  /** The sibling as the branch store holds it. */
  function StoredSibling(branches: Branches, key: H256, height: nat): H256
    requires height < DEPTH
  {
    var level := DEPTH - 1 - height;
    var (left, right) := BranchAt(branches, Bits(key)[..level]);
    if Bits(key)[level] then left else right
  }

  lemma StoredSiblingIsNode(tree: SMT, key: H256, height: nat)
    requires tree.Valid()
    requires height < DEPTH
    ensures StoredSibling(tree.branches, key, height) == Node(tree.merge, tree.leaves, SiblingPath(key, height))
  {
  }

  /** The siblings along `key`'s path, deepest first. */
  function Siblings(merge: Merge, leaves: map<H256, H256>, key: H256): (siblings: seq<H256>)
    ensures |siblings| == DEPTH
  {
    seq(DEPTH, h requires 0 <= h < DEPTH => Node(merge, leaves, SiblingPath(key, h)))
  }

  /** The non-zero ones among the first `count`. */
  function NonZero(siblings: seq<H256>, count: nat): seq<H256>
    requires count <= |siblings|
  {
    if count == 0 then []
    else NonZero(siblings, count - 1) + if siblings[count - 1] == ZERO_HASH then [] else [siblings[count - 1]]
  }

  lemma {:induction false} NonZeroPrefix(siblings: seq<H256>, low: nat, high: nat)
    requires low <= high <= |siblings|
    ensures NonZero(siblings, low) <= NonZero(siblings, high)
  {
    if low < high {
      NonZeroPrefix(siblings, low, high - 1);
    }
  }

  lemma NextNonZero(siblings: seq<H256>, h: nat)
    requires h < |siblings|
    ensures var k := |NonZero(siblings, h)|;
            if siblings[h] == ZERO_HASH then |NonZero(siblings, h + 1)| == k
            else && |NonZero(siblings, h + 1)| == k + 1
                 && k < |NonZero(siblings, |siblings|)| && NonZero(siblings, |siblings|)[k] == siblings[h]
  {
    NonZeroPrefix(siblings, h + 1, |siblings|);
    if siblings[h] != ZERO_HASH {
      assert NonZero(siblings, h + 1)[|NonZero(siblings, h)|] == siblings[h];
    }
  }

  /** Which siblings on `key`'s path are not empty, and those siblings, deepest first. */
  method MerkleProof(tree: SMT, key: H256) returns (bitmap: seq<bool>, merklePath: seq<H256>)
    requires tree.Valid()
    ensures var siblings := Siblings(tree.merge, tree.leaves, key);
            && |bitmap| == DEPTH
            && (forall h | 0 <= h < DEPTH :: bitmap[h] <==> siblings[h] != ZERO_HASH)
            && merklePath == NonZero(siblings, DEPTH)
  {
    bitmap, merklePath := [], [];
    ghost var siblings := Siblings(tree.merge, tree.leaves, key);
    for height := 0 to DEPTH
      invariant |bitmap| == height
      invariant forall h | 0 <= h < height :: bitmap[h] <==> siblings[h] != ZERO_HASH
      invariant merklePath == NonZero(siblings, height)
    {
      var sibling := StoredSibling(tree.branches, key, height);
      assert sibling == siblings[height] by {
        StoredSiblingIsNode(tree, key, height);
      }
      bitmap := bitmap + [sibling != ZERO_HASH];
      if sibling != ZERO_HASH {
        merklePath := merklePath + [sibling];
      }
    }
  }

  /** Puts the siblings of a path at the heights that the bitmap says, and zero hashes at the others. */
  method PlaceSiblings(bitmap: seq<bool>, merklePath: seq<H256>, ghost expected: seq<H256>) returns (siblings: array<H256>)
    requires |bitmap| == |expected| == DEPTH && merklePath == NonZero(expected, DEPTH)
    requires forall h | 0 <= h < DEPTH :: bitmap[h] <==> expected[h] != ZERO_HASH
    ensures fresh(siblings)
    ensures siblings[..] == expected
  {
    siblings := new H256[DEPTH](_ => ZERO_HASH);
    var pathIdx := 0;
    for h := 0 to DEPTH
      invariant pathIdx == |NonZero(expected, h)|
      invariant forall i | 0 <= i < h :: siblings[i] == expected[i]
      invariant forall i | h <= i < DEPTH :: siblings[i] == ZERO_HASH
    {
      NextNonZero(expected, h);
      if bitmap[h] {
        siblings[h] := merklePath[pathIdx];
        pathIdx := pathIdx + 1;
      }
    }
  }

  /** Spreads the compact proof over one entry per level, zero where the sibling is empty. */
  method BuildSiblings(tree: SMT, key: H256) returns (siblings: array<H256>)
    requires tree.Valid()
    ensures fresh(siblings)
    ensures siblings[..] == Siblings(tree.merge, tree.leaves, key)
  {
    var bitmap, merklePath := MerkleProof(tree, key);
    siblings := PlaceSiblings(bitmap, merklePath, Siblings(tree.merge, tree.leaves, key));
  }

  /** Folds a node `height` levels above `key`'s leaf up to the root. */
  function FoldSiblings(merge: Merge, key: H256, node: H256, siblings: seq<H256>, height: nat): H256
    requires |siblings| == DEPTH && height <= DEPTH
    decreases DEPTH - height
  {
    if height == DEPTH then node
    else
      var level := DEPTH - 1 - height;
      var parent := Bits(key)[..level];
      var above := if Bits(key)[level] then merge(parent, siblings[height], node) else merge(parent, node, siblings[height]);
      FoldSiblings(merge, key, above, siblings, height + 1)
  }

  lemma {:induction false} FoldReachesRoot(merge: Merge, leaves: map<H256, H256>, key: H256, value: H256, height: nat)
    requires height <= DEPTH
    ensures var siblings, updated := Siblings(merge, leaves, key), Put(leaves, key, value);
            FoldSiblings(merge, key, Node(merge, updated, Bits(key)[..DEPTH - height]), siblings, height)
            == Root(merge, updated)
    decreases DEPTH - height
  {
    if height < DEPTH {
      UpdatedChildren(merge, leaves, key, value, DEPTH - 1 - height);
      FoldReachesRoot(merge, leaves, key, value, height + 1);
    } else {
      assert Bits(key)[..0] == [];
    }
  }

  /** The siblings read from a tree prove any leaf of it, absent ones included, and also give the root
      the tree has once that leaf is replaced. */
  lemma SiblingsProveLeaf(merge: Merge, leaves: map<H256, H256>, key: H256, value: H256)
    requires forall k <- leaves :: leaves[k] != ZERO_HASH
    ensures FoldSiblings(merge, key, value, Siblings(merge, leaves, key), 0) == Root(merge, Put(leaves, key, value))
    ensures FoldSiblings(merge, key, LeafValue(leaves, key), Siblings(merge, leaves, key), 0) == Root(merge, leaves)
  {
    KeyOfBits(key);
    assert Bits(key)[..DEPTH] == Bits(key);
    FoldReachesRoot(merge, leaves, key, value, 0);
    FoldReachesRoot(merge, leaves, key, LeafValue(leaves, key), 0);
    assert Put(leaves, key, LeafValue(leaves, key)) == leaves;
  }
}
