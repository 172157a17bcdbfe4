/**
 The Merkle tree kept as one flat vector of levels, and its path finder
 (merkle-tree/src/merkle_tree.rs), proved to refine a recursive binary tree.
 */
module MerkleTree {
  import opened Bytes

  // ----- Hashing -----

  function LeafInput(item: seq<Byte>): seq<Byte> {
    [0] + item
  }

  function HashLeaf(h: HashFn, item: seq<Byte>): Bytes32 {
    h(LeafInput(item))
  }

  /** What is hashed for a pair of children, in the order given. */
  function PairBytes(l: Bytes32, r: Bytes32): seq<Byte> {
    [1] + l + r
  }

  /** What is hashed for a pair of children: smaller first when the tree is sorted. */
  function PairInput(sorted: bool, l: Bytes32, r: Bytes32): seq<Byte> {
    if sorted && !LexLe(l, r) then PairBytes(r, l) else PairBytes(l, r)
  }

  function HashPair(h: HashFn, sorted: bool, l: Bytes32, r: Bytes32): Bytes32 {
    h(PairInput(sorted, l, r))
  }

  /**
   What is hashed starts with 0 for a leaf and with 1 for a pair. A pair's two halves are its children:
   in the order given, or in a sorted tree with the one that comes first in byte order first.
   */
  lemma HashInputs(item: seq<Byte>, l: Bytes32, r: Bytes32)
    ensures LeafInput(item)[0] == 0 && LeafInput(item)[1..] == item
    ensures var x := PairInput(false, l, r); |x| == 65 && x[0] == 1 && x[1..33] == l && x[33..] == r
    ensures var x := PairInput(true, l, r);
      && |x| == 65 && x[0] == 1
      && ((x[1..33] == l && x[33..] == r) || (x[1..33] == r && x[33..] == l))
      && (x[1..33] == x[33..] || Precedes(x[1..33], x[33..]))
  {
    PrecedesTotal(l, r);
    LexLeIff(l, r);
    var a, b := PairBytes(l, r), PairBytes(r, l);
    assert a[1..33] == l && a[33..] == r && b[1..33] == r && b[33..] == l;
  }

  lemma SortedPairCommutes(h: HashFn, l: Bytes32, r: Bytes32)
    ensures HashPair(h, true, l, r) == HashPair(h, true, r, l)
  {
    LexTotal(l, r);
    if LexLe(l, r) && LexLe(r, l) {
      LexAntisymmetric(l, r);
    }
  }

  // ----- The reference: a recursive tree that duplicates the last node of an odd level -----

  datatype Tree = Leaf(item: seq<Byte>) | Node(left: Tree, right: Tree)

  function TreeHash(h: HashFn, sorted: bool, t: Tree): Bytes32 {
    match t
    case Leaf(item) => HashLeaf(h, item)
    case Node(l, r) => HashPair(h, sorted, TreeHash(h, sorted, l), TreeHash(h, sorted, r))
  }

  /** The leaf items below a node. */
  function Items(t: Tree): set<seq<Byte>> {
    match t
    case Leaf(item) => {item}
    case Node(l, r) => Items(l) + Items(r)
  }

  /** Every leaf lies exactly d edges below t. */
  predicate Uniform(t: Tree, d: nat) {
    match t
    case Leaf(_) => d == 0
    case Node(l, r) => d > 0 && Uniform(l, d - 1) && Uniform(r, d - 1)
  }

  /** Pair neighbours; an unpaired last element is paired with itself. */
  function NextForest(ts: seq<Tree>): (r: seq<Tree>) {
    seq((|ts| + 1) / 2, i requires 0 <= i < (|ts| + 1) / 2 =>
      Node(ts[2 * i], if 2 * i + 1 < |ts| then ts[2 * i + 1] else ts[2 * i]))
  }

  /** Keep pairing until a single tree is left. */
  function Join(ts: seq<Tree>): Tree
    requires ts != []
    decreases |ts|
  {
    if |ts| == 1 then ts[0] else Join(NextForest(ts))
  }

  function LeafTrees(items: seq<seq<Byte>>): seq<Tree> {
    seq(|items|, i requires 0 <= i < |items| => Leaf(items[i]))
  }

  function ForestLevel(ts: seq<Tree>, k: nat): seq<Tree>
    decreases k
  {
    if k == 0 then ts else ForestLevel(NextForest(ts), k - 1)
  }

  function Hashes(h: HashFn, sorted: bool, ts: seq<Tree>): (r: seq<Bytes32>) {
    seq(|ts|, i requires 0 <= i < |ts| => TreeHash(h, sorted, ts[i]))
  }

  // ----- Levels of hashes, as the flat vector stores them -----

  function LeafHashes(h: HashFn, items: seq<seq<Byte>>): seq<Bytes32> {
    seq(|items|, i requires 0 <= i < |items| => HashLeaf(h, items[i]))
  }

  function NextLevelLen(len: nat): nat {
    if len == 1 then 0 else (len + 1) / 2
  }

  /** The parent hash of pair i of a level. */
  function Parent(h: HashFn, sorted: bool, level: seq<Bytes32>, i: nat): Bytes32
    requires 2 * i < |level|
  {
    HashPair(h, sorted, level[2 * i], if 2 * i + 1 < |level| then level[2 * i + 1] else level[2 * i])
  }

  function NextLevel(h: HashFn, sorted: bool, level: seq<Bytes32>): (r: seq<Bytes32>) {
    seq((|level| + 1) / 2, i requires 0 <= i < (|level| + 1) / 2 => Parent(h, sorted, level, i))
  }

  function Flat(h: HashFn, sorted: bool, level: seq<Bytes32>): seq<Bytes32>
    decreases |level|
  {
    if |level| <= 1 then level else level + Flat(h, sorted, NextLevel(h, sorted, level))
  }

  datatype ProofEntry = ProofEntry(target: Bytes32, left: Option<Bytes32>, right: Option<Bytes32>)
  {
    /** The assertion in `ProofEntry::new`. */
    predicate Valid() {
      left.None? != right.None?
    }
    function Sibling(): Bytes32
      requires Valid()
    {
      if left.Some? then left.value else right.value
    }
  }

  /** The left sibling of index i in a level, if it has one. */
  function LeftSibling(level: seq<Bytes32>, i: nat): Option<Bytes32>
    requires i < |level|
  {
    if i % 2 == 0 then None else Some(level[i - 1])
  }

  /** The right sibling of index i in a level; the last node of an odd level is its own. */
  function RightSibling(level: seq<Bytes32>, i: nat): Option<Bytes32>
    requires i < |level|
  {
    if i % 2 == 1 then None else Some(if i + 1 < |level| then level[i + 1] else level[i])
  }

  /** The path entry above index i of a level: its parent and its one sibling. */
  function EntryAt(h: HashFn, sorted: bool, level: seq<Bytes32>, i: nat): (e: ProofEntry)
    requires i < |level|
    ensures e.Valid()
  {
    ProofEntry(Parent(h, sorted, level, i / 2), LeftSibling(level, i), RightSibling(level, i))
  }

  /** The entries of the path from index i of a level to the root. */
  function Path(h: HashFn, sorted: bool, level: seq<Bytes32>, i: nat): (r: seq<ProofEntry>)
    requires i < |level|
    decreases |level|
  {
    if |level| == 1 then []
    else
      [EntryAt(h, sorted, level, i)] + Path(h, sorted, NextLevel(h, sorted, level), i / 2)
  }

  // ----- The program -----

  datatype MerkleTree = MerkleTree(leafCount: nat, nodes: seq<Bytes32>)

  /** `mt` is what `New` builds from these items. */
  ghost predicate BuiltFrom(h: HashFn, sorted: bool, mt: MerkleTree, items: seq<seq<Byte>>) {
    mt.leafCount == |items| && mt.nodes == Flat(h, sorted, LeafHashes(h, items))
  }

  method New(h: HashFn, items: seq<seq<Byte>>, sorted: bool) returns (mt: MerkleTree)
    ensures BuiltFrom(h, sorted, mt, items)
  {
    var nodes := PushLeaves(h, items);
    ghost var leaves := LeafHashes(h, items);
    var levelLen := NextLevelLen(|items|);
    var levelStart := |items|;
    var prevLevelLen: nat := |items|;
    var prevLevelStart: nat := 0;
    ghost var prev := leaves;
    while levelLen > 0
      invariant prevLevelStart + prevLevelLen == levelStart == |nodes|
      invariant levelLen == NextLevelLen(prevLevelLen)
      invariant Building(h, sorted, leaves, nodes, prevLevelStart, prev)
      decreases prevLevelLen
    {
      BuildStep(h, sorted, leaves, nodes, prevLevelStart, prev);
      nodes := PushLevel(h, sorted, nodes, prevLevelStart, prevLevelLen, levelLen);
      prev := NextLevel(h, sorted, prev);
      prevLevelStart := levelStart;
      prevLevelLen := levelLen;
      levelStart := levelStart + levelLen;
      levelLen := NextLevelLen(levelLen);
    }
    assert nodes == nodes[..prevLevelStart] + prev;
    mt := MerkleTree(|items|, nodes);
  }

  /** The first loop of `New`. */
  method PushLeaves(h: HashFn, items: seq<seq<Byte>>) returns (nodes: seq<Bytes32>)
    ensures nodes == LeafHashes(h, items)
  {
    nodes := [];
    for i := 0 to |items|
      invariant |nodes| == i && forall j :: 0 <= j < i ==> nodes[j] == HashLeaf(h, items[j])
    {
      nodes := nodes + [HashLeaf(h, items[i])];
    }
  }

  /** `level` is the last level pushed, and the rest of the flat vector is still to come. */
  ghost predicate Building(h: HashFn, sorted: bool, leaves: seq<Bytes32>, nodes: seq<Bytes32>, start: nat,
                           level: seq<Bytes32>) {
    && start <= |nodes| && level == nodes[start..]
    && Flat(h, sorted, leaves) == nodes[..start] + Flat(h, sorted, level)
  }

  lemma BuildStep(h: HashFn, sorted: bool, leaves: seq<Bytes32>, nodes: seq<Bytes32>, start: nat, level: seq<Bytes32>)
    requires Building(h, sorted, leaves, nodes, start, level) && |level| > 1
    ensures Building(h, sorted, leaves, nodes + NextLevel(h, sorted, level), |nodes|, NextLevel(h, sorted, level))
  {
    var next := NextLevel(h, sorted, level);
    var rest := Flat(h, sorted, next);
    assert nodes == nodes[..start] + level;
    assert nodes[..start] + (level + rest) == nodes + rest;
    assert (nodes + next)[..|nodes|] == nodes && (nodes + next)[|nodes|..] == next;
  }

  /** The inner loop of `New`: append the parents of the level stored at prevLevelStart. */
  method PushLevel(h: HashFn, sorted: bool, base: seq<Bytes32>, prevLevelStart: nat, prevLevelLen: nat, levelLen: nat)
    returns (nodes: seq<Bytes32>)
    requires prevLevelStart + prevLevelLen == |base| && levelLen == (prevLevelLen + 1) / 2
    ensures nodes == base + NextLevel(h, sorted, base[prevLevelStart..])
  {
    ghost var prev := base[prevLevelStart..];
    ghost var pushed: seq<Bytes32> := [];
    nodes := base;
    for i := 0 to levelLen
      invariant nodes == base + pushed && |pushed| == i
      invariant forall j :: 0 <= j < i ==> pushed[j] == Parent(h, sorted, prev, j)
    {
      var prevLevelIdx := 2 * i;
      var lsib := nodes[prevLevelStart + prevLevelIdx];
      var rsib := if prevLevelIdx + 1 < prevLevelLen then nodes[prevLevelStart + prevLevelIdx + 1]
                  else nodes[prevLevelStart + prevLevelIdx];
      assert lsib == prev[2 * i];
      assert rsib == if 2 * i + 1 < |prev| then prev[2 * i + 1] else prev[2 * i];
      var hash := if sorted && !LexLe(lsib, rsib) then h(PairBytes(rsib, lsib)) else h(PairBytes(lsib, rsib));
      nodes := nodes + [hash];
      pushed := pushed + [hash];
    }
    assert pushed == NextLevel(h, sorted, prev);
  }

  function GetRoot(mt: MerkleTree): Option<Bytes32> {
    if mt.nodes == [] then None else Some(mt.nodes[|mt.nodes| - 1])
  }

  /** The entry that the next loop iteration of `FindPath` will push. */
  ghost function Pending(target: Bytes32, left: Option<Bytes32>, right: Option<Bytes32>): seq<ProofEntry> {
    if left.None? && right.None? then [] else [ProofEntry(target, left, right)]
  }

  /**
   The state of the path walk: the flat vector from `start` on holds `level` and all levels above
   it, and the entries still missing from `all` are the pending one and the path from index i.
   */
  ghost predicate Walking(h: HashFn, sorted: bool, nodes: seq<Bytes32>, all: seq<ProofEntry>, level: seq<Bytes32>,
                          start: nat, i: nat, path: seq<ProofEntry>, left: Option<Bytes32>, right: Option<Bytes32>)
  {
    && start <= |nodes| && nodes[start..] == Flat(h, sorted, level) && i < |level|
    && all == path + Pending(level[i], left, right) + Path(h, sorted, level, i)
  }

  lemma WalkStart(h: HashFn, sorted: bool, nodes: seq<Bytes32>, leaves: seq<Bytes32>, i: nat)
    requires nodes == Flat(h, sorted, leaves) && i < |leaves|
    ensures Walking(h, sorted, nodes, Path(h, sorted, leaves, i), leaves, 0, i, [], None, None)
  {
  }

  lemma LevelSlice(h: HashFn, sorted: bool, nodes: seq<Bytes32>, start: nat, level: seq<Bytes32>)
    requires start <= |nodes| && nodes[start..] == Flat(h, sorted, level)
    ensures start + |level| <= |nodes| && nodes[start..start + |level|] == level
    ensures |level| > 1 ==> nodes[start + |level|..] == Flat(h, sorted, NextLevel(h, sorted, level))
  {
    var flat := Flat(h, sorted, level);
    assert |flat| >= |level| && flat[..|level|] == level;
    assert nodes[start..start + |level|] == flat[..|level|];
    assert nodes[start + |level|..] == flat[|level|..];
  }

  lemma WalkStep(h: HashFn, sorted: bool, nodes: seq<Bytes32>, all: seq<ProofEntry>, level: seq<Bytes32>,
                 start: nat, i: nat, path: seq<ProofEntry>, left: Option<Bytes32>, right: Option<Bytes32>)
    requires Walking(h, sorted, nodes, all, level, start, i, path, left, right)
    ensures start + |level| <= |nodes| && nodes[start..start + |level|] == level
    ensures var path' := path + Pending(level[i], left, right);
            if |level| == 1 then path' == all
            else Walking(h, sorted, nodes, all, NextLevel(h, sorted, level), start + |level|, i / 2,
                         path', LeftSibling(level, i), RightSibling(level, i))
  {
    LevelSlice(h, sorted, nodes, start, level);
    if |level| > 1 {
      PathStep(h, sorted, level, i, path + Pending(level[i], left, right));
    }
  }

  lemma PathStep(h: HashFn, sorted: bool, level: seq<Bytes32>, i: nat, before: seq<ProofEntry>)
    requires i < |level| && |level| > 1
    ensures var next := NextLevel(h, sorted, level);
      && i / 2 < |next|
      && before + Path(h, sorted, level, i)
         == before + Pending(next[i / 2], LeftSibling(level, i), RightSibling(level, i)) + Path(h, sorted, next, i / 2)
  {
    PathUnfold(h, sorted, level, i);
  }

  /** One round of the path walk: push the pending entry, then note the siblings at this level. */
  method WalkLevel(nodes: seq<Bytes32>, levelStart: nat, levelLen: nat, nodeIndex: nat,
                   before: seq<ProofEntry>, left: Option<Bytes32>, right: Option<Bytes32>,
                   ghost h: HashFn, ghost sorted: bool, ghost all: seq<ProofEntry>, ghost cur: seq<Bytes32>)
    returns (path: seq<ProofEntry>, lsib: Option<Bytes32>, rsib: Option<Bytes32>)
    requires Walking(h, sorted, nodes, all, cur, levelStart, nodeIndex, before, left, right)
    requires |cur| == levelLen && (left.None? || right.None?)
    ensures lsib.None? || rsib.None?
    ensures if levelLen == 1 then path == all
            else Walking(h, sorted, nodes, all, NextLevel(h, sorted, cur), levelStart + levelLen,
                         nodeIndex / 2, path, lsib, rsib)
  {
    WalkStep(h, sorted, nodes, all, cur, levelStart, nodeIndex, before, left, right);
    var level := nodes[levelStart..levelStart + levelLen];
    var target := level[nodeIndex];
    path := before;
    if left.Some? || right.Some? {
      assert ProofEntry(target, left, right).Valid();
      path := path + [ProofEntry(target, left, right)];
    }
    assert path == before + Pending(target, left, right);
    lsib, rsib := LeftSibling(level, nodeIndex), RightSibling(level, nodeIndex);
  }

  method FindPath(mt: MerkleTree, index: nat, ghost h: HashFn, ghost sorted: bool, ghost items: seq<seq<Byte>>)
    returns (r: Option<seq<ProofEntry>>)
    requires BuiltFrom(h, sorted, mt, items)
    ensures index >= |items| ==> r == None
    ensures index < |items| ==> r == Some(Path(h, sorted, LeafHashes(h, items), index))
  {
    if index >= mt.leafCount {
      return None;
    }
    ghost var cur := LeafHashes(h, items);
    ghost var all := Path(h, sorted, cur, index);
    WalkStart(h, sorted, mt.nodes, cur, index);
    var levelLen := mt.leafCount;
    var levelStart: nat := 0;
    var path: seq<ProofEntry> := [];
    var nodeIndex: nat := index;
    var lsib: Option<Bytes32> := None;
    var rsib: Option<Bytes32> := None;
    while levelLen > 0
      invariant lsib.None? || rsib.None?
      invariant levelLen > 0 ==> |cur| == levelLen
      invariant levelLen > 0 ==> Walking(h, sorted, mt.nodes, all, cur, levelStart, nodeIndex, path, lsib, rsib)
      invariant levelLen == 0 ==> path == all
      decreases levelLen
    {
      path, lsib, rsib := WalkLevel(mt.nodes, levelStart, levelLen, nodeIndex, path, lsib, rsib, h, sorted, all, cur);
      cur := NextLevel(h, sorted, cur);
      nodeIndex := nodeIndex / 2;
      levelStart := levelStart + levelLen;
      levelLen := NextLevelLen(levelLen);
    }
    r := Some(path);
  }

  /** `Proof::verify`: each entry's target must be the hash of its sibling and the running value. */
  predicate PathAccepts(h: HashFn, path: seq<ProofEntry>, candidate: Bytes32) {
    path == [] ||
    var e := path[0];
    var hash := h(PairBytes(if e.left.Some? then e.left.value else candidate,
                            if e.right.Some? then e.right.value else candidate));
    hash == e.target && PathAccepts(h, path[1..], hash)
  }

  // ----- The flat vector refines the recursive tree -----

  lemma NextForestHashes(h: HashFn, sorted: bool, ts: seq<Tree>)
    ensures Hashes(h, sorted, NextForest(ts)) == NextLevel(h, sorted, Hashes(h, sorted, ts))
  {
  }

  lemma LeafTreeHashes(h: HashFn, sorted: bool, items: seq<seq<Byte>>)
    ensures Hashes(h, sorted, LeafTrees(items)) == LeafHashes(h, items)
  {
  }

  /** How many levels lie above n leaves. */
  function Height(n: nat): nat {
    if n <= 1 then 0 else 1 + Height((n + 1) / 2)
  }

  /** Where level k of n leaves starts in the flat vector. */
  function LevelStart(n: nat, k: nat): nat {
    if k == 0 then 0 else n + LevelStart((n + 1) / 2, k - 1)
  }

  /** A slice of the vector, found where it should start. */
  ghost predicate Holds(nodes: seq<Bytes32>, start: nat, level: seq<Bytes32>) {
    start + |level| <= |nodes| && nodes[start..start + |level|] == level
  }

  lemma HoldsShifted(a: seq<Bytes32>, b: seq<Bytes32>, start: nat, level: seq<Bytes32>)
    requires Holds(b, start, level)
    ensures Holds(a + b, |a| + start, level)
  {
    assert (a + b)[|a| + start..|a| + start + |level|] == b[start..start + |level|];
  }

  lemma FlatUnfold(h: HashFn, sorted: bool, ts: seq<Tree>)
    requires |ts| > 1
    ensures Flat(h, sorted, Hashes(h, sorted, ts))
          == Hashes(h, sorted, ts) + Flat(h, sorted, Hashes(h, sorted, NextForest(ts)))
  {
    NextForestHashes(h, sorted, ts);
  }

  lemma FlatStartsWithLevel(h: HashFn, sorted: bool, level: seq<Bytes32>)
    ensures Holds(Flat(h, sorted, level), 0, level)
  {
  }

  /** Level k of the trees is level k - 1 of their parents, and starts after them. */
  lemma LevelAbove(ts: seq<Tree>, k: nat)
    requires k > 0 && |ts| > 1
    ensures ForestLevel(ts, k) == ForestLevel(NextForest(ts), k - 1)
    ensures LevelStart(|ts|, k) == |ts| + LevelStart(|NextForest(ts)|, k - 1)
  {
  }

  /** Each slice of the flat vector is the matching level of the recursive tree. */
  lemma {:induction false} FlatHoldsLevel(h: HashFn, sorted: bool, ts: seq<Tree>, k: nat)
    requires ts != [] && k <= Height(|ts|)
    ensures Holds(Flat(h, sorted, Hashes(h, sorted, ts)), LevelStart(|ts|, k), Hashes(h, sorted, ForestLevel(ts, k)))
    decreases k
  {
    var level := Hashes(h, sorted, ts);
    if k == 0 {
      FlatStartsWithLevel(h, sorted, level);
    } else {
      var next := NextForest(ts);
      FlatUnfold(h, sorted, ts);
      LevelAbove(ts, k);
      FlatHoldsLevel(h, sorted, next, k - 1);
      HoldsShifted(level, Flat(h, sorted, Hashes(h, sorted, next)), LevelStart(|next|, k - 1),
                   Hashes(h, sorted, ForestLevel(next, k - 1)));
    }
  }

  /** The topmost level is the joined tree alone, and it ends the flat vector. */
  lemma {:induction false} FlatTop(h: HashFn, sorted: bool, ts: seq<Tree>)
    requires ts != []
    ensures ForestLevel(ts, Height(|ts|)) == [Join(ts)]
    ensures |Flat(h, sorted, Hashes(h, sorted, ts))| == LevelStart(|ts|, Height(|ts|)) + 1
    decreases |ts|
  {
    if |ts| > 1 {
      FlatUnfold(h, sorted, ts);
      FlatTop(h, sorted, NextForest(ts));
    }
  }

  /** The root that `GetRoot` reads is the hash of the recursive tree. */
  lemma RootIsTreeHash(h: HashFn, sorted: bool, mt: MerkleTree, items: seq<seq<Byte>>)
    requires BuiltFrom(h, sorted, mt, items)
    ensures items == [] ==> GetRoot(mt) == None
    ensures items != [] ==> GetRoot(mt) == Some(TreeHash(h, sorted, Join(LeafTrees(items))))
  {
    if items != [] {
      var ts := LeafTrees(items);
      var nodes := mt.nodes;
      LeafTreeHashes(h, sorted, items);
      FlatHoldsLevel(h, sorted, ts, Height(|ts|));
      FlatTop(h, sorted, ts);
      var start := LevelStart(|ts|, Height(|ts|));
      assert nodes[start..start + 1] == Hashes(h, sorted, [Join(ts)]);
      assert nodes[start] == nodes[start..start + 1][0];
    }
  }

  lemma {:induction false} JoinShape(ts: seq<Tree>, d: nat, items: set<seq<Byte>>)
    requires ts != []
    requires forall i :: 0 <= i < |ts| ==> Uniform(ts[i], d) && Items(ts[i]) <= items
    ensures Uniform(Join(ts), d + Height(|ts|)) && Items(Join(ts)) <= items
    decreases |ts|
  {
    if |ts| > 1 {
      var next := NextForest(ts);
      forall i | 0 <= i < |next| ensures Uniform(next[i], d + 1) && Items(next[i]) <= items {
      }
      JoinShape(next, d + 1, items);
    }
  }

  /** All leaves of the tree lie at depth Height(n), and each is one of the items. */
  lemma TreeShape(items: seq<seq<Byte>>)
    requires items != []
    ensures Uniform(Join(LeafTrees(items)), Height(|items|))
    ensures Items(Join(LeafTrees(items))) <= set x | x in items
  {
    JoinShape(LeafTrees(items), 0, set x | x in items);
  }

  // ----- The order of the leaves -----

  /** The leaf items from left to right. */
  function Fringe(t: Tree): (r: seq<seq<Byte>>)
    ensures r != []
  {
    match t
    case Leaf(item) => [item]
    case Node(l, r) => Fringe(l) + Fringe(r)
  }

  function FringeOf(ts: seq<Tree>): seq<seq<Byte>> {
    if ts == [] then [] else Fringe(ts[0]) + FringeOf(ts[1..])
  }

  /** The leaves of an unpaired last tree. */
  function Repeated(ts: seq<Tree>): seq<seq<Byte>> {
    if |ts| % 2 == 0 then [] else Fringe(ts[|ts| - 1])
  }

  /** Pairing keeps the leaves in order, and repeats those of an unpaired last tree behind them. */
  lemma {:induction false} PairingKeepsOrder(ts: seq<Tree>)
    ensures FringeOf(NextForest(ts)) == FringeOf(ts) + Repeated(ts)
    decreases |ts|
  {
    if |ts| == 1 {
      assert NextForest(ts) == [Node(ts[0], ts[0])];
      assert ts[1..] == [] && NextForest(ts)[1..] == [];
    } else if |ts| > 1 {
      var first, rest := Node(ts[0], ts[1]), ts[2..];
      PairingKeepsOrder(rest);
      NextForestUnfold(ts);
      FringeOfTree(first, NextForest(rest));
      FringeOfTwo(ts);
      assert Fringe(first) + (FringeOf(rest) + Repeated(rest)) == (Fringe(first) + FringeOf(rest)) + Repeated(rest);
    }
  }

  lemma NextForestUnfold(ts: seq<Tree>)
    requires |ts| > 1
    ensures NextForest(ts) == [Node(ts[0], ts[1])] + NextForest(ts[2..])
  {
  }

  lemma FringeOfTree(t: Tree, ts: seq<Tree>)
    ensures FringeOf([t] + ts) == Fringe(t) + FringeOf(ts)
  {
    assert ([t] + ts)[1..] == ts;
  }

  lemma FringeOfTwo(ts: seq<Tree>)
    requires |ts| > 1
    ensures FringeOf(ts) == Fringe(Node(ts[0], ts[1])) + FringeOf(ts[2..])
  {
    assert ts[1..][1..] == ts[2..];
  }

  lemma {:induction false} JoinKeepsOrder(ts: seq<Tree>)
    requires ts != []
    ensures FringeOf(ts) <= Fringe(Join(ts))
    decreases |ts|
  {
    if |ts| == 1 {
      assert ts[1..] == [];
    } else {
      PairingKeepsOrder(ts);
      JoinKeepsOrder(NextForest(ts));
    }
  }

  lemma {:induction false} LeafFringe(items: seq<seq<Byte>>)
    ensures FringeOf(LeafTrees(items)) == items
  {
    if items != [] {
      LeafFringe(items[1..]);
      assert LeafTrees(items)[1..] == LeafTrees(items[1..]);
    }
  }

  lemma {:induction false} UniformFringe(t: Tree, d: nat)
    requires Uniform(t, d)
    ensures |Fringe(t)| == Pow2(d)
  {
    match t
    case Leaf(_) =>
    case Node(l, r) =>
      UniformFringe(l, d - 1);
      UniformFringe(r, d - 1);
  }

  /** The tree's leaves are the items in their order, then repeated ones up to the next power of two. */
  lemma LeavesInOrder(items: seq<seq<Byte>>)
    requires items != []
    ensures var t := Join(LeafTrees(items)); items <= Fringe(t) && |Fringe(t)| == Pow2(Height(|items|))
  {
    LeafFringe(items);
    JoinKeepsOrder(LeafTrees(items));
    TreeShape(items);
    UniformFringe(Join(LeafTrees(items)), Height(|items|));
  }

  // ----- Paths -----

  function IndexAt(i: nat, k: nat): nat {
    if k == 0 then i else IndexAt(i / 2, k - 1)
  }

  lemma PathUnfold(h: HashFn, sorted: bool, level: seq<Bytes32>, i: nat)
    requires i < |level| && |level| > 1
    ensures var next := NextLevel(h, sorted, level);
            && |next| == (|level| + 1) / 2 && i / 2 < |next|
            && Path(h, sorted, level, i) == [EntryAt(h, sorted, level, i)] + Path(h, sorted, next, i / 2)
  {
  }

  lemma {:induction false} PathLength(h: HashFn, sorted: bool, level: seq<Bytes32>, i: nat)
    requires i < |level|
    ensures |Path(h, sorted, level, i)| == Height(|level|)
    decreases |level|
  {
    if |level| > 1 {
      var next := NextLevel(h, sorted, level);
      PathUnfold(h, sorted, level, i);
      PathLength(h, sorted, next, i / 2);
    }
  }

  /** The index at level k holds a node, and entry k of the path is read off there. */
  ghost predicate ReadsAt(h: HashFn, sorted: bool, path: seq<ProofEntry>, k: nat, level: seq<Bytes32>, i: nat) {
    k < |path| && i < |level| && path[k] == EntryAt(h, sorted, level, i)
  }

  lemma ReadsShifted(h: HashFn, sorted: bool, first: ProofEntry, path: seq<ProofEntry>, k: nat, level: seq<Bytes32>,
                     i: nat)
    requires ReadsAt(h, sorted, path, k, level, i)
    ensures ReadsAt(h, sorted, [first] + path, k + 1, level, i)
  {
  }

  /** The hashes k levels up. */
  function LevelAt(h: HashFn, sorted: bool, level: seq<Bytes32>, k: nat): seq<Bytes32>
    decreases k
  {
    if k == 0 then level else LevelAt(h, sorted, NextLevel(h, sorted, level), k - 1)
  }

  lemma {:induction false} LevelAtIsForest(h: HashFn, sorted: bool, ts: seq<Tree>, k: nat)
    ensures Hashes(h, sorted, ForestLevel(ts, k)) == LevelAt(h, sorted, Hashes(h, sorted, ts), k)
    decreases k
  {
    if k > 0 {
      NextForestHashes(h, sorted, ts);
      LevelAtIsForest(h, sorted, NextForest(ts), k - 1);
    }
  }

  lemma {:induction false} PathReadsLevels(h: HashFn, sorted: bool, level: seq<Bytes32>, i: nat, k: nat)
    requires i < |level| && k < Height(|level|)
    ensures ReadsAt(h, sorted, Path(h, sorted, level, i), k, LevelAt(h, sorted, level, k), IndexAt(i, k))
    decreases k
  {
    PathUnfold(h, sorted, level, i);
    if k > 0 {
      var next := NextLevel(h, sorted, level);
      PathReadsLevels(h, sorted, next, i / 2, k - 1);
      ReadsShifted(h, sorted, EntryAt(h, sorted, level, i), Path(h, sorted, next, i / 2), k - 1,
                   LevelAt(h, sorted, next, k - 1), IndexAt(i / 2, k - 1));
    }
  }

  /** Entry k of a path is the sibling and parent of its index at level k of the recursive tree. */
  lemma PathReadsTree(h: HashFn, sorted: bool, ts: seq<Tree>, i: nat, k: nat)
    requires i < |ts| && k < Height(|ts|)
    ensures ReadsAt(h, sorted, Path(h, sorted, Hashes(h, sorted, ts), i), k,
                    Hashes(h, sorted, ForestLevel(ts, k)), IndexAt(i, k))
  {
    PathReadsLevels(h, sorted, Hashes(h, sorted, ts), i, k);
    LevelAtIsForest(h, sorted, ts, k);
  }

  /** An unsorted tree's own path check accepts every leaf. */
  lemma {:induction false} PathComplete(h: HashFn, level: seq<Bytes32>, i: nat)
    requires i < |level|
    ensures PathAccepts(h, Path(h, false, level, i), level[i])
    decreases |level|
  {
    if |level| > 1 {
      var next := NextLevel(h, false, level);
      PathComplete(h, next, i / 2);
      assert next[i / 2] == Parent(h, false, level, i / 2);
    }
  }

  // ----- Sizes -----

  function Pow2(k: nat): nat {
    if k == 0 then 1 else 2 * Pow2(k - 1)
  }

  function FloorLog2(n: nat): nat
    requires n >= 1
  {
    if n == 1 then 0 else 1 + FloorLog2(n / 2)
  }

  /** Height(n) is the rounded-up binary logarithm. */
  lemma {:induction false} HeightIsCeilLog2(n: nat)
    requires n >= 1
    ensures n <= Pow2(Height(n))
    ensures n >= 2 ==> Pow2(Height(n) - 1) < n
    decreases n
  {
    if n > 1 {
      HeightIsCeilLog2((n + 1) / 2);
    }
  }

  lemma {:induction false} HeightNearFloorLog2(n: nat)
    requires n >= 1
    ensures FloorLog2(n) <= Height(n) <= FloorLog2(n) + 1
    ensures n >= 2 ==> Height(n) == FloorLog2(n - 1) + 1
    decreases n
  {
    if n == 2 {
      assert FloorLog2(1) == 0 && Height(1) == 0;
    } else if n > 2 {
      var m := (n + 1) / 2;
      HeightNearFloorLog2(m);
      assert (n - 1) / 2 == m - 1;
      if n % 2 == 1 {
        assert n / 2 == m - 1;
        assert FloorLog2(n) == 1 + FloorLog2(m - 1);
      }
    }
  }

  lemma {:induction false} FlatSize(h: HashFn, sorted: bool, level: seq<Bytes32>)
    requires level != []
    ensures |Flat(h, sorted, level)| <= 2 * |level| + Height(|level|) - 1
    decreases |level|
  {
    if |level| > 1 {
      FlatSize(h, sorted, NextLevel(h, sorted, level));
    }
  }

  /**
   The flat vector never outgrows 2n + floor(log2 n), which is the reserved capacity
   even when the truncated logarithm comes out one too small.
   */
  lemma CapacitySuffices(h: HashFn, sorted: bool, mt: MerkleTree, items: seq<seq<Byte>>)
    requires BuiltFrom(h, sorted, mt, items)
    ensures items == [] ==> |mt.nodes| == 0
    ensures items != [] ==> |mt.nodes| <= 2 * |items| + FloorLog2(|items|)
  {
    if items != [] {
      FlatSize(h, sorted, LeafHashes(h, items));
      HeightNearFloorLog2(|items|);
    }
  }

  lemma {:induction false} HeightMonotone(m: nat, n: nat)
    requires m <= n
    ensures Height(m) <= Height(n)
    decreases n
  {
    if m > 1 {
      HeightMonotone((m + 1) / 2, (n + 1) / 2);
    }
  }

  lemma {:induction false} HeightOfPow2(k: nat)
    ensures Height(Pow2(k)) == k
  {
    if k > 0 {
      HeightOfPow2(k - 1);
      assert (Pow2(k) + 1) / 2 == Pow2(k - 1);
    }
  }

  /** A tree of fewer than 2^32 leaves has proofs of at most 32 hashes. */
  lemma ProofsAreShort(n: nat)
    requires n < 0x1_0000_0000
    ensures Height(n) <= 32
  {
    assert Pow2(8) == 256;
    assert Pow2(16) == 0x1_0000 by { assert Pow2(12) == 4096; }
    assert Pow2(24) == 0x100_0000 by { assert Pow2(20) == 0x10_0000; }
    assert Pow2(32) == 0x1_0000_0000 by { assert Pow2(28) == 0x1000_0000; }
    HeightMonotone(n, Pow2(32));
    HeightOfPow2(32);
  }
}
