/** The sparse Merkle tree behind both note sets: its digest as a function of its leaves,
    and the tree object that keeps that digest up to date one leaf at a time. */
module SparseMerkle {
  import opened Bytes

  /** Combines the digests of the two children of the node at a path. */
  type Merge = (Path, H256, H256) -> H256

  /** Two empty subtrees make an empty subtree, wherever they are. */
  ghost predicate KeepsEmpty(merge: Merge) {
    forall p: Path :: merge(p, ZERO_HASH, ZERO_HASH) == ZERO_HASH
  }

  /** A leaf that is not stored reads as zero. */
  function LeafValue(leaves: map<H256, H256>, k: H256): H256 {
    if k in leaves then leaves[k] else ZERO_HASH
  }

  /** Storing zero removes the leaf. */
  function Put(leaves: map<H256, H256>, k: H256, value: H256): map<H256, H256> {
    if value == ZERO_HASH then leaves - {k} else leaves[k := value]
  }

  /** The digest of the subtree at `p`, defined on the leaves alone. */
  function Node(merge: Merge, leaves: map<H256, H256>, p: Path): H256
    decreases DEPTH - |p|
  {
    if |p| == DEPTH then
      LeafValue(leaves, KeyOf(p))
    else
      merge(p, Node(merge, leaves, p + [false]), Node(merge, leaves, p + [true]))
  }

  function Root(merge: Merge, leaves: map<H256, H256>): H256 {
    Node(merge, leaves, [])
  }

  lemma HalvesAgree(n: nat, height: nat)
    requires n % 2 == 0 && height > 0
    ensures n / Pow2(height) == (n + 1) / Pow2(height)
  {
    DivideTwice(n, 2, Pow2(height - 1));
    DivideTwice(n + 1, 2, Pow2(height - 1));
  }

  /** Two keys that follow one another as numbers, the first even, part at the lowest branch, the even one to the left. */
  lemma NeighboursPart(a: H256, b: H256)
    requires FromLittleEndian(a) % 2 == 0 && FromLittleEndian(b) == FromLittleEndian(a) + 1
    ensures Bits(a)[..DEPTH - 1] == Bits(b)[..DEPTH - 1] && !Bits(a)[DEPTH - 1] && Bits(b)[DEPTH - 1]
  {
    forall d | 0 <= d < DEPTH - 1
      ensures Bits(a)[d] == Bits(b)[d]
    {
      TurnIsDigit(a, DEPTH - 1 - d);
      TurnIsDigit(b, DEPTH - 1 - d);
      HalvesAgree(FromLittleEndian(a), DEPTH - 1 - d);
    }
    assert Pow2(0) == 1;
    TurnIsDigit(a, 0);
    TurnIsDigit(b, 0);
  }

  /** The lowest branch merges the leaf of an even key, on the left, with that of the next. */
  lemma LowestBranch(merge: Merge, leaves: map<H256, H256>, a: H256, b: H256)
    requires FromLittleEndian(a) % 2 == 0 && FromLittleEndian(b) == FromLittleEndian(a) + 1
    ensures var parent := Bits(a)[..DEPTH - 1];
            Node(merge, leaves, parent) == merge(parent, LeafValue(leaves, a), LeafValue(leaves, b))
  {
    NeighboursPart(a, b);
    var parent := Bits(a)[..DEPTH - 1];
    assert parent + [false] == Bits(a) && parent + [true] == Bits(b);
    KeyOfBits(a);
    KeyOfBits(b);
  }

  /** A subtree's digest depends only on the leaves below it. */
  lemma {:induction false} NodeFrame(merge: Merge, a: map<H256, H256>, b: map<H256, H256>, p: Path)
    requires forall k: H256 :: p <= Bits(k) ==> LeafValue(a, k) == LeafValue(b, k)
    ensures Node(merge, a, p) == Node(merge, b, p)
    decreases DEPTH - |p|
  {
    if |p| == DEPTH {
      BitsOfKey(p);
    } else {
      forall k: H256, turn: bool | p + [turn] <= Bits(k)
        ensures p <= Bits(k)
      {
        assert p <= p + [turn];
      }
      NodeFrame(merge, a, b, p + [false]);
      NodeFrame(merge, a, b, p + [true]);
    }
  }

  lemma {:induction false} EmptyNode(merge: Merge, p: Path)
    requires KeepsEmpty(merge)
    ensures Node(merge, map[], p) == ZERO_HASH
    decreases DEPTH - |p|
  {
    if |p| < DEPTH {
      EmptyNode(merge, p + [false]);
      EmptyNode(merge, p + [true]);
    }
  }

  /** The digests of the two children of the node at `p`. */
  function Children(merge: Merge, leaves: map<H256, H256>, p: Path): (H256, H256)
    requires |p| < DEPTH
  {
    (Node(merge, leaves, p + [false]), Node(merge, leaves, p + [true]))
  }

  /** Changing one leaf leaves every node off its path as it was. */
  lemma OffPathNode(merge: Merge, leaves: map<H256, H256>, key: H256, value: H256, p: Path)
    requires !(p <= Bits(key))
    ensures Node(merge, Put(leaves, key, value), p) == Node(merge, leaves, p)
  {
    NodeFrame(merge, Put(leaves, key, value), leaves, p);
  }

  type Branches = map<Path, (H256, H256)>

  /** A branch that is not stored has two empty children. */
  function BranchAt(branches: Branches, p: Path): (H256, H256) {
    if p in branches then branches[p] else (ZERO_HASH, ZERO_HASH)
  }

  function SetBranch(branches: Branches, p: Path, pair: (H256, H256)): Branches {
    if pair == (ZERO_HASH, ZERO_HASH) then branches - {p} else branches[p := pair]
  }

  /** The stored branches are those of `leaves`, except that the branches on `key`'s path at
      `level` or deeper already account for the leaf `key := value`. */
  ghost predicate ClimbedTo(merge: Merge, leaves: map<H256, H256>, key: H256, value: H256, branches: Branches, level: nat) {
    forall p: Path {:trigger BranchAt(branches, p)} :: |p| < DEPTH ==>
      BranchAt(branches, p)
      == Children(merge, if |p| >= level && p <= Bits(key) then Put(leaves, key, value) else leaves, p)
  }

  /** The updated child and the old sibling are the children of the updated branch at `level`. */
  lemma UpdatedChildren(merge: Merge, leaves: map<H256, H256>, key: H256, value: H256, level: nat)
    requires level < DEPTH
    ensures var parent, updated := Bits(key)[..level], Put(leaves, key, value);
            var child, (left, right) := Node(merge, updated, Bits(key)[..level + 1]), Children(merge, leaves, parent);
            Children(merge, updated, parent) == if Bits(key)[level] then (left, child) else (child, right)
  {
    var path := Bits(key);
    var sibling := path[..level] + [!path[level]];
    assert path[..level] + [path[level]] == path[..level + 1];
    assert !(sibling <= path) by {
      assert sibling[level] != path[level];
    }
    OffPathNode(merge, leaves, key, value, sibling);
  }

  /** Storing the updated branch at `level` moves the climb up by one. */
  lemma ClimbStep(merge: Merge, leaves: map<H256, H256>, key: H256, value: H256, branches: Branches, level: nat)
    requires level < DEPTH
    requires ClimbedTo(merge, leaves, key, value, branches, level + 1)
    ensures var parent := Bits(key)[..level];
            ClimbedTo(merge, leaves, key, value,
                      SetBranch(branches, parent, Children(merge, Put(leaves, key, value), parent)), level)
  {
    var parent := Bits(key)[..level];
    var climbed := SetBranch(branches, parent, Children(merge, Put(leaves, key, value), parent));
    forall p: Path | |p| < DEPTH
      ensures BranchAt(climbed, p)
           == Children(merge, if |p| >= level && p <= Bits(key) then Put(leaves, key, value) else leaves, p)
    {
      if p != parent {
        assert BranchAt(climbed, p) == BranchAt(branches, p);
      }
    }
  }

  /** Once the root is reached, the stored branches are those of the updated leaves. */
  lemma ClimbedToRoot(merge: Merge, leaves: map<H256, H256>, key: H256, value: H256, branches: Branches)
    requires ClimbedTo(merge, leaves, key, value, branches, 0)
    ensures forall p: Path {:trigger BranchAt(branches, p)} :: |p| < DEPTH ==> BranchAt(branches, p) == Children(merge, Put(leaves, key, value), p)
  {
    forall p: Path | |p| < DEPTH
      ensures BranchAt(branches, p) == Children(merge, Put(leaves, key, value), p)
    {
      if !(p <= Bits(key)) {
        OffPathNode(merge, leaves, key, value, p + [false]);
        OffPathNode(merge, leaves, key, value, p + [true]);
      }
    }
  }

  class SMT {
    const merge: Merge
    var leaves: map<H256, H256>
    /** The two child digests of every branch that is not entirely empty. */
    var branches: Branches
    var root: H256

    ghost predicate Valid()
      reads this
    {
      && KeepsEmpty(merge)
      && (forall k <- leaves :: leaves[k] != ZERO_HASH)
      && (forall p: Path {:trigger BranchAt(branches, p)} :: |p| < DEPTH ==> BranchAt(branches, p) == Children(merge, leaves, p))
      && root == Root(merge, leaves)
    }

    constructor (merge: Merge)
      requires KeepsEmpty(merge)
      ensures Valid()
      ensures this.merge == merge && leaves == map[] && root == ZERO_HASH
    {
      this.merge := merge;
      leaves, branches, root := map[], map[], ZERO_HASH;
      new;
      forall p: Path
        ensures Node(merge, map[], p) == ZERO_HASH
      {
        EmptyNode(merge, p);
      }
    }

    predicate Contains(key: H256)
      reads this
    {
      key in leaves
    }

    /** Stores a leaf and recomputes the branches above it, from the leaf to the root. */
    method UpdateLeaf(key: H256, value: H256)
      requires Valid()
      modifies this
      ensures Valid()
      ensures leaves == Put(old(leaves), key, value)
    {
      leaves := Put(leaves, key, value);
      var path := Bits(key);
      var node := value;
      var i := DEPTH;
      KeyOfBits(key);
      assert path[..i] == path;
      while i > 0
        invariant 0 <= i <= DEPTH
        invariant leaves == Put(old(leaves), key, value)
        invariant node == Node(merge, leaves, path[..i])
        invariant ClimbedTo(merge, old(leaves), key, value, branches, i)
      {
        i := i - 1;
        var parent := path[..i];
        var (left, right) := BranchAt(branches, parent);
        UpdatedChildren(merge, old(leaves), key, value, i);
        if path[i] {
          right := node;
        } else {
          left := node;
        }
        ClimbStep(merge, old(leaves), key, value, branches, i);
        branches := SetBranch(branches, parent, (left, right));
        node := merge(parent, left, right);
      }
      root := node;
      ClimbedToRoot(merge, old(leaves), key, value, branches);
    }
  }
}
