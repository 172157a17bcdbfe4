/**
 Building an airdrop tree from claim rows (merkle-tree/src/airdrop_merkle_tree.rs,
 tree_node.rs, utils.rs): duplicate claimants are combined, proofs are attached, and the
 result passes its own validation.
 */
module AirdropTree {
  import opened Bytes
  import opened MerkleTree
  import opened MerkleVerify

  datatype TreeNode = TreeNode(claimant: Pubkey, amount: u64, locked: Option<u64>, proof: Option<seq<Bytes32>>)
  {
    function Locked(): u64 {
      if locked.Some? then locked.value else 0
    }
    function Total(): nat {
      amount + Locked()
    }
    function Grant(): Entitlement {
      Entitlement(claimant, amount, Locked())
    }
  }

  datatype AirdropTree =
    AirdropTree(root: Bytes32, version: u64, maxNumNodes: nat, maxTotalClaim: u64, nodes: seq<TreeNode>)

  /** Panics are failures here too: `unwrap` on an overflow, and the root assertion. */
  datatype TreeError = MerkleRootError | MerkleValidationError | Panic

  const MAX_NODES: nat := 0xFFFF_FFFF

  function Grants(nodes: seq<TreeNode>): seq<Entitlement> {
    seq(|nodes|, i requires 0 <= i < |nodes| => nodes[i].Grant())
  }

  /** No two rows name the same claimant. */
  predicate Distinct(nodes: seq<TreeNode>) {
    forall i, j :: 0 <= i < j < |nodes| ==> nodes[i].claimant != nodes[j].claimant
  }

  /** What all rows grant together. */
  function Total(rows: seq<TreeNode>): nat {
    if rows == [] then 0 else Total(rows[..|rows| - 1]) + rows[|rows| - 1].Total()
  }

  // ----- What combining duplicate claimants means -----

  /** The claimants in order of first appearance. */
  function FirstSeen(rows: seq<TreeNode>): seq<Pubkey> {
    if rows == [] then []
    else
      var before, c := FirstSeen(rows[..|rows| - 1]), rows[|rows| - 1].claimant;
      if c in before then before else before + [c]
  }

  function AmountOf(rows: seq<TreeNode>, c: Pubkey): nat {
    if rows == [] then 0
    else AmountOf(rows[..|rows| - 1], c) + if rows[|rows| - 1].claimant == c then rows[|rows| - 1].amount else 0
  }

  function LockedOf(rows: seq<TreeNode>, c: Pubkey): nat {
    if rows == [] then 0
    else LockedOf(rows[..|rows| - 1], c) + if rows[|rows| - 1].claimant == c then rows[|rows| - 1].Locked() else 0
  }

  predicate HasLocked(rows: seq<TreeNode>, c: Pubkey) {
    exists i :: 0 <= i < |rows| && rows[i].claimant == c && rows[i].locked.Some?
  }

  /** The node holds the sums of its claimant's rows, and a locked amount exactly when some row had one. */
  predicate IsCombined(n: TreeNode, rows: seq<TreeNode>, c: Pubkey) {
    && n.claimant == c
    && n.amount == AmountOf(rows, c)
    && n.Locked() == LockedOf(rows, c)
    && (n.locked.Some? <==> HasLocked(rows, c))
  }

  /** The nodes are the rows combined by claimant, in order of first appearance. */
  ghost predicate Combines(nodes: seq<TreeNode>, rows: seq<TreeNode>) {
    && |nodes| == |FirstSeen(rows)|
    && forall i :: 0 <= i < |nodes| ==> IsCombined(nodes[i], rows, FirstSeen(rows)[i])
  }

  lemma {:induction false} FirstSeenDistinct(rows: seq<TreeNode>)
    ensures forall i, j :: 0 <= i < j < |FirstSeen(rows)| ==> FirstSeen(rows)[i] != FirstSeen(rows)[j]
    ensures forall c :: c in FirstSeen(rows) <==> exists i :: 0 <= i < |rows| && rows[i].claimant == c
  {
    if rows != [] {
      var init := rows[..|rows| - 1];
      FirstSeenDistinct(init);
      forall c ensures c in FirstSeen(rows) <==> exists i :: 0 <= i < |rows| && rows[i].claimant == c {
        if i :| 0 <= i < |rows| && rows[i].claimant == c {
          if i < |init| {
            assert init[i].claimant == c;
          }
        }
      }
    }
  }

  /** Of two claimants in the list, the earlier one has a row before any row of the later one. */
  lemma {:induction false} FirstSeenInOrder(rows: seq<TreeNode>, i: nat, j: nat) returns (p: nat)
    requires i < j < |FirstSeen(rows)|
    ensures p < |rows| && rows[p].claimant == FirstSeen(rows)[i]
    ensures forall q :: 0 <= q <= p ==> rows[q].claimant != FirstSeen(rows)[j]
  {
    var init := rows[..|rows| - 1];
    if j < |FirstSeen(init)| {
      p := FirstSeenInOrder(init, i, j);
      assert forall q :: 0 <= q <= p ==> rows[q] == init[q];
    } else {
      FirstSeenDistinct(init);
      assert FirstSeen(init)[i] in FirstSeen(init);
      p :| p < |init| && init[p].claimant == FirstSeen(init)[i];
      assert forall q :: 0 <= q <= p ==> rows[q] == init[q];
    }
  }

  lemma {:induction false} SumsBelowTotal(rows: seq<TreeNode>, c: Pubkey)
    ensures AmountOf(rows, c) + LockedOf(rows, c) <= Total(rows)
  {
    if rows != [] {
      SumsBelowTotal(rows[..|rows| - 1], c);
    }
  }

  lemma {:induction false} TotalMonotone(rows: seq<TreeNode>, k: nat)
    requires k <= |rows|
    ensures Total(rows[..k]) <= Total(rows)
  {
    if k < |rows| {
      TotalMonotone(rows[..|rows| - 1], k);
      assert rows[..|rows| - 1][..k] == rows[..k];
    } else {
      assert rows[..k] == rows;
    }
  }

  /** The sums that the rows give to the first k claimants of a list. */
  ghost function GroupTotal(order: seq<Pubkey>, rows: seq<TreeNode>): nat {
    if order == [] then 0
    else
      var c := order[|order| - 1];
      GroupTotal(order[..|order| - 1], rows) + AmountOf(rows, c) + LockedOf(rows, c)
  }

  lemma {:induction false} GroupTotalAddRow(order: seq<Pubkey>, rows: seq<TreeNode>)
    requires rows != []
    requires forall i, j :: 0 <= i < j < |order| ==> order[i] != order[j]
    ensures var x := rows[|rows| - 1];
            GroupTotal(order, rows)
            == GroupTotal(order, rows[..|rows| - 1]) + if x.claimant in order then x.Total() else 0
  {
    if order != [] {
      var init, c := order[..|order| - 1], order[|order| - 1];
      GroupTotalAddRow(init, rows);
      assert order == init + [c];
    }
  }

  /** A claimant no row names gets nothing. */
  lemma {:induction false} AbsentGetsNothing(rows: seq<TreeNode>, c: Pubkey)
    requires forall i :: 0 <= i < |rows| ==> rows[i].claimant != c
    ensures AmountOf(rows, c) == LockedOf(rows, c) == 0
  {
    if rows != [] {
      AbsentGetsNothing(rows[..|rows| - 1], c);
    }
  }

  lemma {:induction false} GroupsAddUp(rows: seq<TreeNode>)
    ensures GroupTotal(FirstSeen(rows), rows) == Total(rows)
  {
    if rows != [] {
      var init, x := rows[..|rows| - 1], rows[|rows| - 1];
      var order := FirstSeen(init);
      GroupsAddUp(init);
      FirstSeenDistinct(init);
      FirstSeenDistinct(rows);
      GroupTotalAddRow(FirstSeen(rows), rows);
      if x.claimant !in order {
        assert FirstSeen(rows)[..|order|] == order;
        AbsentGetsNothing(init, x.claimant);
      }
    }
  }

  lemma {:induction false} CombinedTotal(nodes: seq<TreeNode>, order: seq<Pubkey>, rows: seq<TreeNode>)
    requires |nodes| == |order|
    requires forall i :: 0 <= i < |nodes| ==> IsCombined(nodes[i], rows, order[i])
    ensures Total(nodes) == GroupTotal(order, rows)
  {
    if nodes != [] {
      CombinedTotal(nodes[..|nodes| - 1], order[..|order| - 1], rows);
    }
  }

  /** Combining keeps the total, and leaves one node per claimant. */
  lemma CombiningConserves(nodes: seq<TreeNode>, rows: seq<TreeNode>)
    requires Combines(nodes, rows)
    ensures Total(nodes) == Total(rows) && Distinct(nodes)
    ensures nodes == [] <==> rows == []
  {
    CombinedTotal(nodes, FirstSeen(rows), rows);
    GroupsAddUp(rows);
    FirstSeenDistinct(rows);
    if rows != [] {
      assert rows[0].claimant in FirstSeen(rows);
    }
  }

  // ----- The program -----

  /** What the combining loop knows after some rows; the index map is its order of keys plus their nodes. */
  ghost predicate IndexMapOf(order: seq<Pubkey>, nodes: map<Pubkey, TreeNode>, rows: seq<TreeNode>) {
    && order == FirstSeen(rows)
    && (forall c :: c in nodes <==> c in order)
    && (forall c :: c in nodes ==> IsCombined(nodes[c], rows, c))
  }

  lemma IndexMapStep(order: seq<Pubkey>, nodes: map<Pubkey, TreeNode>, rows: seq<TreeNode>, row: TreeNode)
    requires IndexMapOf(order, nodes, rows)
    requires row.claimant in nodes ==>
      nodes[row.claimant].amount + row.amount <= U64_MAX && nodes[row.claimant].Locked() + row.Locked() <= U64_MAX
    ensures IndexMapOf(if row.claimant in nodes then order else order + [row.claimant],
                       nodes[row.claimant := if row.claimant in nodes then Merge(nodes[row.claimant], row) else row],
                       rows + [row])
  {
    var next := rows + [row];
    var c := row.claimant;
    var node := if c in nodes then Merge(nodes[c], row) else row;
    assert next[..|next| - 1] == rows;
    if c !in nodes {
      FirstSeenDistinct(rows);
      AbsentGetsNothing(rows, c);
    }
    HasLockedSnoc(rows, row, c);
    assert IsCombined(node, next, c);
    forall d | d in nodes && d != c ensures IsCombined(nodes[d], next, d) {
      HasLockedSnoc(rows, row, d);
    }
  }

  lemma HasLockedSnoc(rows: seq<TreeNode>, row: TreeNode, c: Pubkey)
    ensures HasLocked(rows + [row], c) <==> HasLocked(rows, c) || (row.claimant == c && row.locked.Some?)
  {
    var next := rows + [row];
    assert next[|rows|] == row;
    if i :| 0 <= i < |rows| && rows[i].claimant == c && rows[i].locked.Some? {
      assert next[i] == rows[i];
    }
  }

  /** `and_modify`: add a row to the node of the same claimant. */
  function Merge(n: TreeNode, row: TreeNode): TreeNode
    requires n.amount + row.amount <= U64_MAX && n.Locked() + row.Locked() <= U64_MAX
  {
    var locked := match (n.locked, row.locked)
                  case (Some(a), Some(b)) => Some(a + b)
                  case (Some(a), None) => Some(a)
                  case (None, Some(b)) => Some(b)
                  case (None, None) => None;
    n.(amount := n.amount + row.amount, locked := locked)
  }

  /** Combine rows with the same claimant, keeping the order of first appearance; None is a panic on overflow. */
  method CombineRows(rows: seq<TreeNode>) returns (r: Option<seq<TreeNode>>)
    ensures r.Some? ==> Combines(r.value, rows)
    ensures r.None? ==> Total(rows) > U64_MAX
  {
    var order: seq<Pubkey> := [];
    var byClaimant: map<Pubkey, TreeNode> := map[];
    for i := 0 to |rows|
      invariant IndexMapOf(order, byClaimant, rows[..i])
    {
      var row := rows[i];
      var c := row.claimant;
      assert rows[..i + 1] == rows[..i] + [row];
      if c in byClaimant {
        if byClaimant[c].amount + row.amount > U64_MAX || byClaimant[c].Locked() + row.Locked() > U64_MAX {
          SumsBelowTotal(rows[..i + 1], c);
          TotalMonotone(rows, i + 1);
          return None;
        }
      }
      IndexMapStep(order, byClaimant, rows[..i], row);
      if c in byClaimant {
        byClaimant := byClaimant[c := Merge(byClaimant[c], row)];
      } else {
        byClaimant := byClaimant[c := row];
        order := order + [c];
      }
    }
    assert rows[..|rows|] == rows;
    var nodes := seq(|order|, i requires 0 <= i < |order| && order[i] in byClaimant => byClaimant[order[i]]);
    r := Some(nodes);
  }

  /** `get_max_total_claim`; None is a panic on overflow. */
  method GetMaxTotalClaim(nodes: seq<TreeNode>) returns (r: Option<u64>)
    ensures r == if Total(nodes) <= U64_MAX then Some(Total(nodes)) else None
  {
    var acc: u64 := 0;
    for i := 0 to |nodes|
      invariant acc == Total(nodes[..i])
    {
      assert nodes[..i + 1][..i] == nodes[..i];
      if nodes[i].amount + nodes[i].Locked() > U64_MAX || acc + nodes[i].Total() > U64_MAX {
        TotalMonotone(nodes, i + 1);
        return None;
      }
      acc := acc + nodes[i].Total();
    }
    assert nodes[..|nodes|] == nodes;
    r := Some(acc);
  }

  function HashedNodes(h: HashFn, nodes: seq<TreeNode>): (r: seq<seq<Byte>>)
    ensures r == NodeHashes(h, Grants(nodes))
  {
    seq(|nodes|, i requires 0 <= i < |nodes| =>
      h(nodes[i].claimant + LittleEndian(nodes[i].amount, 8) + LittleEndian(nodes[i].Locked(), 8)))
  }

  /** What `validate` accepts. It does not look at the stored proofs. */
  ghost predicate Valid(h: HashFn, t: AirdropTree) {
    && t.maxNumNodes < 0x1_0000_0000
    && |t.nodes| == t.maxNumNodes
    && Distinct(t.nodes)
    && Total(t.nodes) == t.maxTotalClaim
    && t.nodes != []
    && t.root == MerkleRoot(h, Grants(t.nodes))
  }

  /** A valid tree whose nodes carry the proofs of their own leaves. */
  ghost predicate Publishable(h: HashFn, t: AirdropTree) {
    && Valid(h, t)
    && forall i :: 0 <= i < |t.nodes| ==> t.nodes[i].proof == Some(StoredProof(h, Grants(t.nodes), i))
  }

  /** The hash set of claimants. */
  function Claimants(nodes: seq<TreeNode>): set<Pubkey> {
    if nodes == [] then {} else Claimants(nodes[..|nodes| - 1]) + {nodes[|nodes| - 1].claimant}
  }

  lemma {:induction false} ClaimantsMember(nodes: seq<TreeNode>, c: Pubkey)
    ensures c in Claimants(nodes) <==> exists i :: 0 <= i < |nodes| && nodes[i].claimant == c
  {
    if nodes != [] {
      var init := nodes[..|nodes| - 1];
      ClaimantsMember(init, c);
      if i :| 0 <= i < |nodes| && nodes[i].claimant == c && i < |init| {
        assert init[i].claimant == c;
      }
      if i :| 0 <= i < |init| && init[i].claimant == c {
        assert nodes[i].claimant == c;
      }
    }
  }

  lemma {:induction false} CountingFindsDuplicates(nodes: seq<TreeNode>)
    ensures |Claimants(nodes)| <= |nodes|
    ensures |Claimants(nodes)| == |nodes| <==> Distinct(nodes)
  {
    if nodes != [] {
      var init, c := nodes[..|nodes| - 1], nodes[|nodes| - 1].claimant;
      CountingFindsDuplicates(init);
      ClaimantsMember(init, c);
      assert Distinct(nodes) <==> Distinct(init) && forall i :: 0 <= i < |init| ==> init[i].claimant != c by {
        if Distinct(nodes) {
          assert forall i, j :: 0 <= i < j < |init| ==> init[i] == nodes[i] && init[j] == nodes[j];
        }
      }
    }
  }

  method VerifyProofs(h: HashFn, t: AirdropTree) returns (r: Result<(), TreeError>)
    ensures r.Ok? <==> t.nodes != [] && t.root == MerkleRoot(h, Grants(t.nodes))
  {
    var items := HashedNodes(h, t.nodes);
    var mt := New(h, items, true);
    RootIsTreeHash(h, true, mt, items);
    var root := GetRoot(mt);
    if root.None? {
      return Err(MerkleValidationError);
    }
    if root.value != t.root {
      return Err(Panic);
    }
    var valid := true;
    for i := 0 to |items|
      invariant valid
    {
      var leaf := h([0] + items[i]);
      var proof := GetProof(mt, i, h, items);
      VerifierComplete(h, items, i);
      var ok := Verify(h, proof.value, t.root, leaf);
      valid := valid && ok;
    }
    r := if valid then Ok(()) else Err(MerkleValidationError);
  }

  method Validate(h: HashFn, t: AirdropTree) returns (r: Result<(), TreeError>)
    ensures r.Ok? <==> Valid(h, t)
  {
    if t.maxNumNodes > MAX_NODES || |t.nodes| != t.maxNumNodes {
      return Err(MerkleValidationError);
    }
    CountingFindsDuplicates(t.nodes);
    if |Claimants(t.nodes)| != |t.nodes| {
      return Err(MerkleValidationError);
    }
    var sum := GetMaxTotalClaim(t.nodes);
    if sum.None? {
      return Err(Panic);
    }
    if sum.value != t.maxTotalClaim {
      return Err(MerkleValidationError);
    }
    var checked := VerifyProofs(h, t);
    r := if checked.Err? then Err(MerkleValidationError) else Ok(());
  }

  ghost function StoredProofs(h: HashFn, es: seq<Entitlement>): seq<seq<Bytes32>> {
    seq(|es|, i requires 0 <= i < |es| => StoredProof(h, es, i))
  }

  method ProofOf(h: HashFn, mt: MerkleTree, i: nat, ghost es: seq<Entitlement>, ghost proofs: seq<seq<Bytes32>>)
    returns (r: Option<seq<Bytes32>>)
    requires i < |es| && BuiltFrom(h, true, mt, NodeHashes(h, es)) && proofs == StoredProofs(h, es)
    ensures |proofs| == |es| && r == Some(proofs[i])
  {
    r := GetProof(mt, i, h, NodeHashes(h, es));
  }

  /** The loop that stores each node's proof. */
  method AttachProofs(h: HashFn, nodes: seq<TreeNode>, mt: MerkleTree, ghost es: seq<Entitlement>,
                      ghost proofs: seq<seq<Bytes32>>)
    returns (r: seq<TreeNode>)
    requires |es| == |nodes| == |proofs| && BuiltFrom(h, true, mt, NodeHashes(h, es)) && proofs == StoredProofs(h, es)
    ensures |r| == |nodes|
    ensures forall i :: 0 <= i < |r| ==> r[i] == nodes[i].(proof := Some(proofs[i]))
  {
    r := [];
    for i := 0 to |nodes|
      invariant |r| == i
      invariant forall j :: 0 <= j < i ==> r[j] == nodes[j].(proof := Some(proofs[j]))
    {
      var proof := ProofOf(h, mt, i, es, proofs);
      r := r + [nodes[i].(proof := proof)];
    }
  }

  lemma {:induction false} ProofsDoNotMatter(a: seq<TreeNode>, b: seq<TreeNode>)
    requires |a| == |b| && forall i :: 0 <= i < |a| ==> b[i] == a[i].(proof := b[i].proof)
    ensures Grants(a) == Grants(b) && Total(a) == Total(b)
  {
    if a != [] {
      ProofsDoNotMatter(a[..|a| - 1], b[..|b| - 1]);
    }
    assert forall i :: 0 <= i < |a| ==> b[i].Grant() == a[i].Grant();
  }

  /** Nodes that combine the rows, with their proofs attached, make a publishable tree. */
  lemma AttachedIsPublishable(h: HashFn, rows: seq<TreeNode>, nodes: seq<TreeNode>, t: AirdropTree)
    requires rows != [] && Combines(nodes, rows)
    requires |t.nodes| == |nodes| == t.maxNumNodes
    requires forall i :: 0 <= i < |nodes| ==> t.nodes[i] == nodes[i].(proof := Some(StoredProofs(h, Grants(nodes))[i]))
    requires t.maxTotalClaim == Total(t.nodes)
    requires nodes != [] ==> t.root == MerkleRoot(h, Grants(nodes))
    ensures Combines(t.nodes, rows) && Total(t.nodes) == Total(rows)
    ensures Valid(h, t) <==> |FirstSeen(rows)| < 0x1_0000_0000
    ensures Valid(h, t) ==> Publishable(h, t)
  {
    CombiningConserves(nodes, rows);
    ProofsDoNotMatter(nodes, t.nodes);
    assert Distinct(t.nodes) by {
      forall i, j | 0 <= i < j < |nodes| ensures t.nodes[i].claimant != t.nodes[j].claimant {
        assert nodes[i].claimant != nodes[j].claimant;
      }
    }
    forall i | 0 <= i < |nodes| ensures IsCombined(t.nodes[i], rows, FirstSeen(rows)[i]) {
      assert IsCombined(nodes[i], rows, FirstSeen(rows)[i]);
    }
  }

  /**
   `AirdropMerkleTree::new`. It succeeds exactly on a non-empty input whose grand total fits u64
   and which names fewer than 2^32 claimants; the tree is then publishable, combines the rows and
   caps claims at their grand total.
   */
  method Build(h: HashFn, rows: seq<TreeNode>, version: u64) returns (r: Result<AirdropTree, TreeError>)
    ensures r.Ok? <==> rows != [] && Total(rows) <= U64_MAX && |FirstSeen(rows)| < 0x1_0000_0000
    ensures rows == [] ==> r == Err(MerkleRootError)
    ensures r.Ok? ==> Publishable(h, r.value) && Combines(r.value.nodes, rows)
    ensures r.Ok? ==> r.value.maxTotalClaim == Total(rows) && r.value.version == version
  {
    var combined := CombineRows(rows);
    if combined.None? {
      return Err(Panic);
    }
    var nodes := combined.value;
    CombiningConserves(nodes, rows);
    var items := HashedNodes(h, nodes);
    var mt := New(h, items, true);
    RootIsTreeHash(h, true, mt, items);
    var withProofs := AttachProofs(h, nodes, mt, Grants(nodes), StoredProofs(h, Grants(nodes)));
    ProofsDoNotMatter(nodes, withProofs);
    var max := GetMaxTotalClaim(withProofs);
    if max.None? {
      return Err(Panic);
    }
    var root := GetRoot(mt);
    if root.None? {
      return Err(MerkleRootError);
    }
    var tree := AirdropTree(root.value, version, |withProofs|, max.value, withProofs);
    AttachedIsPublishable(h, rows, nodes, tree);
    var checked := Validate(h, tree);
    if checked.Err? {
      return Err(checked.error);
    }
    r := Ok(tree);
  }
}
