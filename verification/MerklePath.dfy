/** Merkle paths over trees of any depth: folding siblings up to a root, and what such a fold proves. */
module MerklePath {
  import opened Wrappers
  import opened Bytes

  /** A 256-bit unsigned integer. */
  type Element = n: nat | n < 0x1_0000_0000_0000_0000_0000_0000_0000_0000_0000_0000_0000_0000_0000_0000_0000_0000

  const NULL_HASH: Element := 0

  type HashMerge = (Element, Element) -> Element

  /** The bits of an element that pick its leaf in a tree with `depth` levels of branching, deepest first. */
  function LeastSignificantBits(e: Element, depth: nat): (bits: seq<bool>)
    requires depth <= 256
    ensures |bits| == depth
  {
    LowBits(e, depth)
  }

  /** Bit `i` is the binary digit of weight 2 to the `i`. */
  lemma BitOfElement(e: Element, depth: nat, i: nat)
    requires depth <= 256 && i < depth
    ensures LeastSignificantBits(e, depth)[i] <==> e / Pow2(i) % 2 == 1
  {
    LowBitsAt(e, depth, i);
  }

  /** Two elements pick the same leaf exactly when they agree modulo the number of leaves. */
  lemma SamePathIff(a: Element, b: Element, depth: nat)
    requires depth <= 256
    ensures LeastSignificantBits(a, depth) == LeastSignificantBits(b, depth) <==> a % Pow2(depth) == b % Pow2(depth)
  {
    FromLowBitsOfLowBits(a, depth);
    FromLowBitsOfLowBits(b, depth);
    LowBitsOfMod(a, depth);
    LowBitsOfMod(b, depth);
  }

  /** A set bit puts the node on the right of its sibling. */
  function Ordered(node: Element, sibling: Element, bit: bool): (Element, Element) {
    if bit then (sibling, node) else (node, sibling)
  }

  function Parent(merge: HashMerge, node: Element, sibling: Element, bit: bool): Element {
    var (left, right) := Ordered(node, sibling, bit);
    merge(left, right)
  }

  /** The node reached from `leaf` after all the siblings. */
  function Fold(merge: HashMerge, leaf: Element, siblings: seq<Element>, bits: seq<bool>): Element
    requires |bits| == |siblings|
  {
    if siblings == [] then leaf
    else
      var last := |siblings| - 1;
      Parent(merge, Fold(merge, leaf, siblings[..last], bits[..last]), siblings[last], bits[last])
  }

  method ComputeMerkleRootFromIter(merge: HashMerge, leaf: Element, siblings: seq<Element>, bits: seq<bool>)
    returns (root: Element)
    requires |bits| == |siblings|
    ensures root == Fold(merge, leaf, siblings, bits)
  {
    root := leaf;
    for i := 0 to |siblings|
      invariant root == Fold(merge, leaf, siblings[..i], bits[..i])
    {
      assert siblings[..i + 1][..i] == siblings[..i] && bits[..i + 1][..i] == bits[..i];
      if bits[i] {
        root := merge(siblings[i], root);
      } else {
        root := merge(root, siblings[i]);
      }
    }
    assert siblings[..|siblings|] == siblings && bits[..|siblings|] == bits;
  }

  function MerkleRoot(merge: HashMerge, leaf: Element, pathElement: Element, siblings: seq<Element>): Element
    requires |siblings| <= 256
  {
    Fold(merge, leaf, siblings, LeastSignificantBits(pathElement, |siblings|))
  }

  function NullRoot(merge: HashMerge, leaf: Element, siblings: seq<Element>): Element
    requires |siblings| <= 256
  {
    MerkleRoot(merge, NULL_HASH, leaf, siblings)
  }

  /** All nodes on the path of `leaf`, from the leaf itself to the root. */
  method ComputeMerklePathForLeaf(merge: HashMerge, leaf: Element, siblings: seq<Element>) returns (path: seq<Element>)
    requires |siblings| <= 256
    ensures path == PathOf(merge, leaf, siblings)
  {
    var bits := LeastSignificantBits(leaf, |siblings|);
    path := [leaf];
    var hash := leaf;
    for i := 0 to |siblings|
      invariant |path| == i + 1 && hash == Fold(merge, leaf, siblings[..i], bits[..i])
      invariant forall j | 0 <= j <= i :: path[j] == Fold(merge, leaf, siblings[..j], bits[..j])
    {
      assert siblings[..i + 1][..i] == siblings[..i] && bits[..i + 1][..i] == bits[..i];
      if bits[i] {
        hash := merge(siblings[i], hash);
      } else {
        hash := merge(hash, siblings[i]);
      }
      path := path + [hash];
    }
  }

  /** Entry `i` is the node reached after the first `i` siblings. */
  function PathOf(merge: HashMerge, leaf: Element, siblings: seq<Element>): (path: seq<Element>)
    requires |siblings| <= 256
    ensures |path| == |siblings| + 1
  {
    var bits := LeastSignificantBits(leaf, |siblings|);
    seq(|siblings| + 1, i requires 0 <= i <= |siblings| => Fold(merge, leaf, siblings[..i], bits[..i]))
  }

  // ---- what a path proves about a tree ----

  datatype Tree = Leaf(value: Element) | Branch(left: Tree, right: Tree)

  /** All leaves of the tree are `depth` branches below its root. */
  predicate Perfect(t: Tree, depth: nat) {
    match t
    case Leaf(_) => depth == 0
    case Branch(left, right) => depth > 0 && Perfect(left, depth - 1) && Perfect(right, depth - 1)
  }

  function Root(merge: HashMerge, t: Tree): Element {
    match t
    case Leaf(value) => value
    case Branch(left, right) => merge(Root(merge, left), Root(merge, right))
  }

  function LeafAt(t: Tree, bits: seq<bool>): Element
    requires Perfect(t, |bits|)
  {
    match t
    case Leaf(value) => value
    case Branch(left, right) =>
      var last := |bits| - 1;
      LeafAt(if bits[last] then right else left, bits[..last])
  }

  function Replace(t: Tree, bits: seq<bool>, value: Element): (r: Tree)
    requires Perfect(t, |bits|)
    ensures Perfect(r, |bits|)
  {
    match t
    case Leaf(_) => Leaf(value)
    case Branch(left, right) =>
      var last := |bits| - 1;
      if bits[last] then Branch(left, Replace(right, bits[..last], value))
      else Branch(Replace(left, bits[..last], value), right)
  }

  /** The roots of the subtrees hanging off the path, deepest first. */
  function SiblingsOf(merge: HashMerge, t: Tree, bits: seq<bool>): (siblings: seq<Element>)
    requires Perfect(t, |bits|)
    ensures |siblings| == |bits|
  {
    match t
    case Leaf(_) => []
    case Branch(left, right) =>
      var last := |bits| - 1;
      if bits[last] then SiblingsOf(merge, right, bits[..last]) + [Root(merge, left)]
      else SiblingsOf(merge, left, bits[..last]) + [Root(merge, right)]
  }

  lemma {:induction false} ReplaceChangesOneLeaf(t: Tree, bits: seq<bool>, value: Element, other: seq<bool>)
    requires Perfect(t, |bits|) && |other| == |bits|
    ensures LeafAt(Replace(t, bits, value), other) == if other == bits then value else LeafAt(t, other)
  {
    match t
    case Leaf(_) =>
      assert other == bits;
    case Branch(left, right) =>
      var last := |bits| - 1;
      assert bits == bits[..last] + [bits[last]] && other == other[..last] + [other[last]];
      ReplaceChangesOneLeaf(if bits[last] then right else left, bits[..last], value, other[..last]);
  }

  lemma FoldSnoc(merge: HashMerge, leaf: Element, siblings: seq<Element>, last: Element, bits: seq<bool>)
    requires |bits| == |siblings| + 1
    ensures var n := |siblings|;
            Fold(merge, leaf, siblings + [last], bits) == Parent(merge, Fold(merge, leaf, siblings, bits[..n]), last, bits[n])
  {
    assert (siblings + [last])[..|siblings|] == siblings;
  }

  /** Folding the siblings of a leaf from any value gives the root of the tree with that leaf replaced by it. */
  lemma {:induction false} FoldReplaces(merge: HashMerge, t: Tree, bits: seq<bool>, value: Element)
    requires Perfect(t, |bits|)
    ensures Fold(merge, value, SiblingsOf(merge, t, bits), bits) == Root(merge, Replace(t, bits, value))
  {
    if t.Branch? {
      var last := |bits| - 1;
      var below, aside := if bits[last] then t.right else t.left, if bits[last] then t.left else t.right;
      FoldReplaces(merge, below, bits[..last], value);
      FoldSnoc(merge, value, SiblingsOf(merge, below, bits[..last]), Root(merge, aside), bits);
    }
  }

  lemma {:induction false} ReplaceSame(t: Tree, bits: seq<bool>)
    requires Perfect(t, |bits|)
    ensures Replace(t, bits, LeafAt(t, bits)) == t
  {
    if t.Branch? {
      var last := |bits| - 1;
      ReplaceSame(if bits[last] then t.right else t.left, bits[..last]);
    }
  }

  /** The leaves of a tree from left to right. */
  function LeavesOf(t: Tree): (leaves: seq<Element>)
    ensures |leaves| > 0
  {
    match t
    case Leaf(value) => [value]
    case Branch(left, right) => LeavesOf(left) + LeavesOf(right)
  }

  lemma {:induction false} LeafCount(t: Tree, depth: nat)
    requires Perfect(t, depth)
    ensures |LeavesOf(t)| == Pow2(depth)
  {
    if t.Branch? {
      LeafCount(t.left, depth - 1);
      LeafCount(t.right, depth - 1);
    }
  }

  lemma UpdateConcat<T>(left: seq<T>, right: seq<T>, k: nat, value: T)
    requires k < |left| + |right|
    ensures (left + right)[k := value]
         == if k < |left| then left[k := value] + right else left + right[k - |left| := value]
  {
  }

  /** The leaf that bits lead to is the one whose number they spell, counted from the left, and replacing it replaces
      that one. */
  lemma {:induction false} LeafNumbered(t: Tree, bits: seq<bool>, value: Element)
    requires Perfect(t, |bits|)
    ensures var k := FromLowBits(bits);
            && k < |LeavesOf(t)| == Pow2(|bits|) && LeafAt(t, bits) == LeavesOf(t)[k]
            && LeavesOf(Replace(t, bits, value)) == LeavesOf(t)[k := value]
  {
    LeafCount(t, |bits|);
    if t.Branch? {
      var last := |bits| - 1;
      LeafCount(t.left, last);
      LeafNumbered(if bits[last] then t.right else t.left, bits[..last], value);
      FromLowBitsSnoc(bits);
      UpdateConcat(LeavesOf(t.left), LeavesOf(t.right), FromLowBits(bits), value);
    }
  }

  /** An element leads to the leaf whose number is the element modulo the number of leaves, counted from the left. */
  lemma ElementPlace(t: Tree, depth: nat, e: Element, value: Element)
    requires depth <= 256 && Perfect(t, depth)
    ensures var bits, k := LeastSignificantBits(e, depth), e % Pow2(depth);
            && k < |LeavesOf(t)| == Pow2(depth) && LeafAt(t, bits) == LeavesOf(t)[k]
            && LeavesOf(Replace(t, bits, value)) == LeavesOf(t)[k := value]
  {
    FromLowBitsOfLowBits(e, depth);
    LeafNumbered(t, LeastSignificantBits(e, depth), value);
  }

  /** Inserting a leaf: with the siblings of its own place in the tree, which its number modulo the number of leaves
      gives, the null root is the root of the tree without it, the merkle root is the root of the tree with it, and no
      other leaf of the tree changes. */
  lemma InsertionRoots(merge: HashMerge, t: Tree, depth: nat, leaf: Element)
    requires depth <= 256 && Perfect(t, depth)
    ensures var bits, k := LeastSignificantBits(leaf, depth), leaf % Pow2(depth);
            var siblings, inserted, removed := SiblingsOf(merge, t, bits), Replace(t, bits, leaf), Replace(t, bits, NULL_HASH);
            && MerkleRoot(merge, leaf, leaf, siblings) == Root(merge, inserted)
            && NullRoot(merge, leaf, siblings) == Root(merge, removed)
            && k < |LeavesOf(t)|
            && LeavesOf(inserted) == LeavesOf(t)[k := leaf] && LeavesOf(removed) == LeavesOf(t)[k := NULL_HASH]
            && (LeavesOf(t)[k] == NULL_HASH ==> removed == t)
  {
    var bits := LeastSignificantBits(leaf, depth);
    FoldReplaces(merge, t, bits, leaf);
    FoldReplaces(merge, t, bits, NULL_HASH);
    ElementPlace(t, depth, leaf, leaf);
    ElementPlace(t, depth, leaf, NULL_HASH);
    ReplaceSame(t, bits);
  }

  /** Two levels: a leaf with an odd number is on the right, and its parent on the side that the next digit says. */
  lemma FoldOfTwo(merge: HashMerge, leaf: Element, e: Element, s0: Element, s1: Element)
    ensures var node := if e % 2 == 1 then merge(s0, leaf) else merge(leaf, s0);
            MerkleRoot(merge, leaf, e, [s0, s1]) == if e / 2 % 2 == 1 then merge(s1, node) else merge(node, s1)
  {
    var siblings, bits := [s0, s1], LeastSignificantBits(e, 2);
    assert Pow2(0) == 1 && Pow2(1) == 2;
    BitOfElement(e, 2, 0);
    BitOfElement(e, 2, 1);
    assert siblings[..1] == [s0] && siblings[..1][..0] == [] && bits[..1][..0] == [];
    assert Fold(merge, leaf, [s0], bits[..1]) == Parent(merge, leaf, s0, bits[0]);
  }

  /** The pair merged at step `i` of a fold. */
  function MergedAt(merge: HashMerge, leaf: Element, siblings: seq<Element>, bits: seq<bool>, i: nat): (Element, Element)
    requires |bits| == |siblings| && i < |siblings|
  {
    Ordered(Fold(merge, leaf, siblings[..i], bits[..i]), siblings[i], bits[i])
  }

  /** Binding: two different openings of one path to one root contain a collision of the merge, and this finds
      the step where it is. */
  lemma {:induction false} FindCollision(merge: HashMerge, leaf: Element, siblings: seq<Element>,
                                         leaf': Element, siblings': seq<Element>, bits: seq<bool>)
    returns (i: nat)
    requires |siblings| == |siblings'| == |bits|
    requires Fold(merge, leaf, siblings, bits) == Fold(merge, leaf', siblings', bits)
    requires leaf != leaf' || siblings != siblings'
    ensures i < |bits|
    ensures var (a, b), (c, d) := MergedAt(merge, leaf, siblings, bits, i), MergedAt(merge, leaf', siblings', bits, i);
            (a, b) != (c, d) && merge(a, b) == merge(c, d)
  {
    var last := |bits| - 1;
    if MergedAt(merge, leaf, siblings, bits, last) != MergedAt(merge, leaf', siblings', bits, last) {
      i := last;
    } else {
      assert siblings == siblings[..last] + [siblings[last]] && siblings' == siblings'[..last] + [siblings'[last]];
      i := FindCollision(merge, leaf, siblings[..last], leaf', siblings'[..last], bits[..last]);
      assert siblings[..last][..i] == siblings[..i] && siblings'[..last][..i] == siblings'[..i];
      assert bits[..last][..i] == bits[..i];
    }
  }

  // ---- paths of a fixed depth ----

  /** A path as constructed holds `depth - 1` siblings. */
  predicate IsPath(depth: nat, siblings: seq<Element>) {
    depth > 0 && |siblings| == depth - 1
  }

  /** The array form has one entry per level. */
  function ToArray(depth: nat, entries: seq<Element>): Option<seq<Element>> {
    if |entries| == depth then Some(entries) else None
  }

  /** Applying a leaf gives one entry more than a path holds: what it returns is never a path again, and of the
      two only what it returns has an array form, whose first entries are the path's nodes below the root. */
  lemma AppliedLeafIsNoPath(merge: HashMerge, depth: nat, siblings: seq<Element>, leaf: Element)
    requires IsPath(depth, siblings) && depth <= 257
    ensures var applied := PathOf(merge, leaf, siblings);
            && !IsPath(depth, applied)
            && ToArray(depth, siblings) == None
            && ToArray(depth, applied) == Some(applied)
            && applied[0] == leaf && applied[depth - 1] == MerkleRoot(merge, leaf, leaf, siblings)
  {
    var bits := LeastSignificantBits(leaf, |siblings|);
    assert siblings[..depth - 1] == siblings && bits[..depth - 1] == bits;
  }

  // ---- empty trees ----

  /** As computed: every level merges with the null hash on the right. */
  function EmptyTreeRoot(merge: HashMerge, depth: nat): Element
    requires depth > 0
  {
    Fold(merge, NULL_HASH, seq(depth - 1, _ => NULL_HASH), seq(depth - 1, _ => false))
  }

  /** As documented: every level merges the empty subtree with itself. */
  function DocumentedEmptyRoot(merge: HashMerge, depth: nat): Element
    requires depth > 0
  {
    if depth == 1 then NULL_HASH
    else merge(DocumentedEmptyRoot(merge, depth - 1), DocumentedEmptyRoot(merge, depth - 1))
  }

  lemma EmptyTreeRootStep(merge: HashMerge, depth: nat)
    requires depth > 1
    ensures EmptyTreeRoot(merge, depth) == merge(EmptyTreeRoot(merge, depth - 1), NULL_HASH)
  {
    var nulls, lefts := seq(depth - 1, _ => NULL_HASH), seq(depth - 1, _ => false);
    assert nulls[..depth - 2] == seq(depth - 2, _ => NULL_HASH);
    assert lefts[..depth - 2] == seq(depth - 2, _ => false);
  }

  /** Up to depth 2 the two agree. From depth 3 on they agree when the null hash merges to itself, and if they
      agree although it does not, some level merges two different pairs to the same hash. */
  lemma {:induction false} EmptyRootsAgree(merge: HashMerge, depth: nat)
    requires depth > 0
    ensures depth <= 2 || merge(NULL_HASH, NULL_HASH) == NULL_HASH ==>
              EmptyTreeRoot(merge, depth) == DocumentedEmptyRoot(merge, depth)
    ensures merge(NULL_HASH, NULL_HASH) == NULL_HASH ==> DocumentedEmptyRoot(merge, depth) == NULL_HASH
  {
    if depth > 1 {
      EmptyRootsAgree(merge, depth - 1);
      EmptyTreeRootStep(merge, depth);
    }
  }

  /** Two different pairs that merge alike at one of the levels below `depth`. */
  ghost predicate EmptyLevelsCollide(merge: HashMerge, depth: nat) {
    exists level: nat | 1 <= level < depth ::
      var computed, documented := EmptyTreeRoot(merge, level), DocumentedEmptyRoot(merge, level);
      (computed, NULL_HASH) != (documented, documented) && merge(computed, NULL_HASH) == merge(documented, documented)
  }

  lemma {:induction false} EmptyRootsDiffer(merge: HashMerge, depth: nat)
    requires depth >= 3
    requires !EmptyLevelsCollide(merge, depth)
    ensures EmptyTreeRoot(merge, depth) == DocumentedEmptyRoot(merge, depth) <==> merge(NULL_HASH, NULL_HASH) == NULL_HASH
  {
    EmptyRootsAgree(merge, depth);
    if EmptyTreeRoot(merge, depth) == DocumentedEmptyRoot(merge, depth) {
      EmptyTreeRootStep(merge, depth);
      assert EmptyTreeRoot(merge, depth - 1) == DocumentedEmptyRoot(merge, depth - 1) == NULL_HASH;
      if depth == 3 {
        EmptyTreeRootStep(merge, 2);
        assert EmptyTreeRoot(merge, 1) == NULL_HASH;
      } else {
        forall level: nat | 1 <= level < depth - 1
          ensures var computed, documented := EmptyTreeRoot(merge, level), DocumentedEmptyRoot(merge, level);
                  !((computed, NULL_HASH) != (documented, documented) && merge(computed, NULL_HASH) == merge(documented, documented))
        {
        }
        EmptyRootsDiffer(merge, depth - 1);
      }
    }
  }
}
