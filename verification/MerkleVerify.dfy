/**
 The sorted-pair proof verifier (verify/src/lib.rs) against the tree of entitlements:
 every leaf's own proof is accepted, and whatever is accepted is a leaf unless the
 explicit finder below returns two inputs with one hash.
 */
module MerkleVerify {
  import opened Bytes
  import opened MerkleTree

  // ----- Verifying -----

  /** The hash reached from a leaf by a proof. */
  function Fold(h: HashFn, proof: seq<Bytes32>, leaf: Bytes32): Bytes32 {
    if proof == [] then leaf
    else HashPair(h, true, Fold(h, proof[..|proof| - 1], leaf), proof[|proof| - 1])
  }

  predicate Accepts(h: HashFn, proof: seq<Bytes32>, root: Bytes32, leaf: Bytes32) {
    Fold(h, proof, leaf) == root
  }

  method Verify(h: HashFn, proof: seq<Bytes32>, root: Bytes32, leaf: Bytes32) returns (ok: bool)
    ensures ok <==> Accepts(h, proof, root, leaf)
  {
    var computed := leaf;
    for i := 0 to |proof|
      invariant computed == Fold(h, proof[..i], leaf)
    {
      var element := proof[i];
      if LexLe(computed, element) {
        computed := h([1] + computed + element);
      } else {
        computed := h([1] + element + computed);
      }
      assert proof[..i + 1][..i] == proof[..i];
    }
    assert proof[..|proof|] == proof;
    ok := computed == root;
  }

  // ----- Proofs of a tree -----

  /** The sibling hashes from index i of a level up to the root. */
  function ProofAt(h: HashFn, level: seq<Bytes32>, i: nat): seq<Bytes32>
    requires i < |level|
    decreases |level|
  {
    if |level| == 1 then []
    else [EntryAt(h, true, level, i).Sibling()] + ProofAt(h, NextLevel(h, true, level), i / 2)
  }

  lemma {:induction false} ProofReadsPath(h: HashFn, level: seq<Bytes32>, i: nat)
    requires i < |level|
    ensures var path, proof := Path(h, true, level, i), ProofAt(h, level, i);
            && |path| == |proof|
            && forall k :: 0 <= k < |path| ==> path[k].Valid() && path[k].Sibling() == proof[k]
    decreases |level|
  {
    if |level| > 1 {
      PathUnfold(h, true, level, i);
      ProofReadsPath(h, NextLevel(h, true, level), i / 2);
    }
  }

  /** `get_proof`; None stands for its panic on an index past the last leaf. */
  method GetProof(mt: MerkleTree, index: nat, ghost h: HashFn, ghost items: seq<seq<Byte>>)
    returns (r: Option<seq<Bytes32>>)
    requires BuiltFrom(h, true, mt, items)
    ensures index >= |items| ==> r == None
    ensures index < |items| ==> r == Some(ProofAt(h, LeafHashes(h, items), index))
  {
    var found := FindPath(mt, index, h, true, items);
    if found.None? {
      return None;
    }
    ProofReadsPath(h, LeafHashes(h, items), index);
    var proof := CollectSiblings(found.value, ProofAt(h, LeafHashes(h, items), index));
    r := Some(proof);
  }

  /** The loop of `get_proof`: each entry's left sibling if it has one, else its right sibling. */
  method CollectSiblings(path: seq<ProofEntry>, ghost all: seq<Bytes32>) returns (proof: seq<Bytes32>)
    requires |path| == |all|
    requires forall k :: 0 <= k < |path| ==> path[k].Valid() && path[k].Sibling() == all[k]
    ensures proof == all
  {
    proof := [];
    for k := 0 to |path|
      invariant proof == all[..k]
    {
      assert path[k].Sibling() == all[k];
      if path[k].left.Some? {
        proof := proof + [path[k].left.value];
      } else {
        proof := proof + [path[k].right.value];
      }
    }
  }

  // ----- Completeness -----

  lemma {:induction false} FoldFront(h: HashFn, first: Bytes32, rest: seq<Bytes32>, leaf: Bytes32)
    ensures Fold(h, [first] + rest, leaf) == Fold(h, rest, HashPair(h, true, leaf, first))
  {
    var proof := [first] + rest;
    if rest == [] {
      assert proof == [first] && proof[..0] == [];
    } else {
      FoldFront(h, first, rest[..|rest| - 1], leaf);
      assert proof[..|proof| - 1] == [first] + rest[..|rest| - 1];
    }
  }

  lemma SiblingPairsToParent(h: HashFn, level: seq<Bytes32>, i: nat)
    requires i < |level|
    ensures HashPair(h, true, level[i], EntryAt(h, true, level, i).Sibling()) == Parent(h, true, level, i / 2)
  {
    SortedPairCommutes(h, level[i], EntryAt(h, true, level, i).Sibling());
  }

  lemma ProofUnfold(h: HashFn, level: seq<Bytes32>, i: nat)
    requires i < |level| && |level| > 1
    ensures i / 2 < |NextLevel(h, true, level)| && NextLevel(h, true, level)[i / 2] == Parent(h, true, level, i / 2)
    ensures ProofAt(h, level, i)
          == [EntryAt(h, true, level, i).Sibling()] + ProofAt(h, NextLevel(h, true, level), i / 2)
  {
  }

  /** Folding a proof one level up. */
  lemma FoldUp(h: HashFn, level: seq<Bytes32>, i: nat)
    requires i < |level| && |level| > 1
    ensures i / 2 < |NextLevel(h, true, level)|
    ensures Fold(h, ProofAt(h, level, i), level[i])
         == Fold(h, ProofAt(h, NextLevel(h, true, level), i / 2), NextLevel(h, true, level)[i / 2])
  {
    var sibling := EntryAt(h, true, level, i).Sibling();
    ProofUnfold(h, level, i);
    SiblingPairsToParent(h, level, i);
    FoldFront(h, sibling, ProofAt(h, NextLevel(h, true, level), i / 2), level[i]);
  }

  lemma {:induction false} ProofsFold(h: HashFn, ts: seq<Tree>, i: nat)
    requires i < |ts|
    ensures Fold(h, ProofAt(h, Hashes(h, true, ts), i), TreeHash(h, true, ts[i])) == TreeHash(h, true, Join(ts))
    decreases |ts|
  {
    if |ts| > 1 {
      FoldUp(h, Hashes(h, true, ts), i);
      NextForestHashes(h, true, ts);
      ProofsFold(h, NextForest(ts), i / 2);
    }
  }

  /** The proof that `get_proof` returns for a leaf is accepted against the tree's root, and has one hash per level. */
  lemma VerifierComplete(h: HashFn, items: seq<seq<Byte>>, i: nat)
    requires i < |items|
    ensures var proof := ProofAt(h, LeafHashes(h, items), i);
            && Accepts(h, proof, TreeHash(h, true, Join(LeafTrees(items))), HashLeaf(h, items[i]))
            && |proof| == Height(|items|)
  {
    LeafTreeHashes(h, true, items);
    ProofsFold(h, LeafTrees(items), i);
    ProofReadsPath(h, LeafHashes(h, items), i);
    PathLength(h, true, LeafHashes(h, items), i);
  }

  // ----- Soundness -----

  /** Two inputs that collide, found while following an accepted proof down the tree; None if there are none. */
  function TreeCollision(h: HashFn, t: Tree, proof: seq<Bytes32>, item: seq<Byte>): Option<(seq<Byte>, seq<Byte>)>
    decreases |proof|
  {
    if proof == [] then
      match t
      case Leaf(other) => if item == other then None else Some((LeafInput(item), LeafInput(other)))
      case Node(l, r) => Some((LeafInput(item), PairInput(true, TreeHash(h, true, l), TreeHash(h, true, r))))
    else
      var init, last := proof[..|proof| - 1], proof[|proof| - 1];
      var below := Fold(h, init, HashLeaf(h, item));
      var mine := PairInput(true, below, last);
      match t
      case Leaf(other) => Some((mine, LeafInput(other)))
      case Node(l, r) =>
        var theirs := PairInput(true, TreeHash(h, true, l), TreeHash(h, true, r));
        if mine != theirs then Some((mine, theirs))
        else if below == TreeHash(h, true, l) then TreeCollision(h, l, init, item)
        else TreeCollision(h, r, init, item)
  }

  lemma PairInputChildren(a: Bytes32, b: Bytes32, c: Bytes32, d: Bytes32)
    requires PairInput(true, a, b) == PairInput(true, c, d)
    ensures a == c || a == d
  {
    var x, y := PairInput(true, a, b), PairInput(true, c, d);
    assert x[1..33] == (if LexLe(a, b) then a else b) && x[33..65] == (if LexLe(a, b) then b else a);
    assert y[1..33] == (if LexLe(c, d) then c else d) && y[33..65] == (if LexLe(c, d) then d else c);
  }

  /** An accepted item is in the tree at the proof's depth, or the pair returned collides. */
  lemma {:induction false} TreeSound(h: HashFn, t: Tree, proof: seq<Bytes32>, item: seq<Byte>, depth: nat)
    requires Uniform(t, depth)
    requires Accepts(h, proof, TreeHash(h, true, t), HashLeaf(h, item))
    ensures var c := TreeCollision(h, t, proof, item);
            if c.Some? then Collides(h, c.value.0, c.value.1) else item in Items(t) && |proof| == depth
    decreases |proof|
  {
    if proof == [] {
      match t
      case Leaf(other) =>
        assert LeafInput(item)[1..] == item && LeafInput(other)[1..] == other;
      case Node(l, r) =>
        assert LeafInput(item)[0] != PairInput(true, TreeHash(h, true, l), TreeHash(h, true, r))[0];
    } else {
      var init, last := proof[..|proof| - 1], proof[|proof| - 1];
      var below := Fold(h, init, HashLeaf(h, item));
      var mine := PairInput(true, below, last);
      match t
      case Leaf(other) =>
        assert mine[0] != LeafInput(other)[0];
      case Node(l, r) =>
        var lh, rh := TreeHash(h, true, l), TreeHash(h, true, r);
        if mine == PairInput(true, lh, rh) {
          PairInputChildren(below, last, lh, rh);
          TreeSound(h, if below == lh then l else r, init, item, depth - 1);
        }
    }
  }

  // ----- The tree of entitlements -----

  /** What one leaf of an airdrop tree grants. */
  datatype Entitlement = Entitlement(claimant: Pubkey, unlocked: u64, locked: u64)

  function NodeBytes(e: Entitlement): seq<Byte> {
    e.claimant + LittleEndian(e.unlocked, 8) + LittleEndian(e.locked, 8)
  }

  function NodeHash(h: HashFn, e: Entitlement): Bytes32 {
    h(NodeBytes(e))
  }

  function NodeHashes(h: HashFn, es: seq<Entitlement>): seq<seq<Byte>> {
    seq(|es|, i requires 0 <= i < |es| => NodeHash(h, es[i]))
  }

  /** The leaf that the verifier is asked about: the hashed node under the leaf prefix. */
  function ClaimLeaf(h: HashFn, e: Entitlement): Bytes32 {
    HashLeaf(h, NodeHash(h, e))
  }

  function MerkleRoot(h: HashFn, es: seq<Entitlement>): Bytes32
    requires es != []
  {
    TreeHash(h, true, Join(LeafTrees(NodeHashes(h, es))))
  }

  /** The proof stored for leaf i. */
  function StoredProof(h: HashFn, es: seq<Entitlement>, i: nat): seq<Bytes32>
    requires i < |es|
  {
    ProofAt(h, LeafHashes(h, NodeHashes(h, es)), i)
  }

  /** A node's 48 bytes are the claimant and both amounts, unlocked first, least significant bytes first. */
  lemma NodeBytesReadBack(e: Entitlement)
    ensures var x := NodeBytes(e);
      && |x| == 48 && x[..32] == e.claimant
      && Spelled(x[32..40]) == e.unlocked && Spelled(x[40..48]) == e.locked
  {
    var x := NodeBytes(e);
    assert x[..32] == e.claimant;
    assert x[32..40] == LittleEndian(e.unlocked, 8) && x[40..48] == LittleEndian(e.locked, 8);
    MachineWidths();
    LittleEndianReadsBack(e.unlocked, 8);
    LittleEndianReadsBack(e.locked, 8);
  }

  lemma NodeBytesInjective(e: Entitlement, f: Entitlement)
    requires NodeBytes(e) == NodeBytes(f)
    ensures e == f
  {
    NodeBytesReadBack(e);
    NodeBytesReadBack(f);
  }

  /** An entry of es, other than e, whose node hash is e's; None if there is none. */
  function NodeCollision(h: HashFn, es: seq<Entitlement>, e: Entitlement): Option<(seq<Byte>, seq<Byte>)> {
    if es == [] then None
    else if es[0] != e && NodeHash(h, es[0]) == NodeHash(h, e) then Some((NodeBytes(e), NodeBytes(es[0])))
    else NodeCollision(h, es[1..], e)
  }

  /** The collision finder for one accepted claim. */
  function ClaimCollision(h: HashFn, es: seq<Entitlement>, proof: seq<Bytes32>,
                          e: Entitlement): Option<(seq<Byte>, seq<Byte>)>
    requires es != []
  {
    var c := TreeCollision(h, Join(LeafTrees(NodeHashes(h, es))), proof, NodeHash(h, e));
    if c.Some? then c else if e in es then None else NodeCollision(h, es, e)
  }

  lemma {:induction false} NodeSound(h: HashFn, es: seq<Entitlement>, e: Entitlement)
    requires e !in es && NodeHash(h, e) in NodeHashes(h, es)
    ensures NodeCollision(h, es, e).Some?
    ensures Collides(h, NodeCollision(h, es, e).value.0, NodeCollision(h, es, e).value.1)
  {
    if NodeHash(h, es[0]) == NodeHash(h, e) {
      if NodeBytes(es[0]) == NodeBytes(e) {
        NodeBytesInjective(es[0], e);
      }
    } else {
      assert NodeHashes(h, es) == [NodeHash(h, es[0])] + NodeHashes(h, es[1..]);
      NodeSound(h, es[1..], e);
    }
  }

  /**
   Whatever the verifier accepts against the root of a tree of entitlements, for a proof of any
   length, is one of the tree's leaves and the proof is as long as the tree is high; otherwise
   the finder has returned two different inputs with the same hash.
   */
  lemma {:induction false} VerifierSound(h: HashFn, es: seq<Entitlement>, proof: seq<Bytes32>, e: Entitlement)
    requires es != []
    requires Accepts(h, proof, MerkleRoot(h, es), ClaimLeaf(h, e))
    ensures var c := ClaimCollision(h, es, proof, e);
            if c.Some? then Collides(h, c.value.0, c.value.1) else e in es && |proof| == Height(|es|)
  {
    var items := NodeHashes(h, es);
    TreeShape(items);
    var t := Join(LeafTrees(items));
    TreeSound(h, t, proof, NodeHash(h, e), Height(|items|));
    if TreeCollision(h, t, proof, NodeHash(h, e)).None? {
      assert NodeHash(h, e) in items;
      if e !in es {
        NodeSound(h, es, e);
      }
    }
  }

  /** Every leaf is accepted with the proof stored for it. */
  lemma StoredProofAccepted(h: HashFn, es: seq<Entitlement>, i: nat)
    requires i < |es|
    ensures Accepts(h, StoredProof(h, es, i), MerkleRoot(h, es), ClaimLeaf(h, es[i]))
    ensures |StoredProof(h, es, i)| == Height(|es|)
  {
    VerifierComplete(h, NodeHashes(h, es), i);
  }
}
