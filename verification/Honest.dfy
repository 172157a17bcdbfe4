/**
 Runs whose roots come from published trees: Merkle soundness ties every claim status to a leaf, the
 books then bound what is outstanding, and so every claim of an unclaimed leaf goes through.
 */
module Honest {
  import opened Bytes
  import opened Sums
  import opened MerkleVerify
  import AirdropTree
  import opened Vesting
  import opened Distributor
  import opened Invariants
  import opened Runs

  function GrantTotal(e: Entitlement): int {
    e.unlocked + e.locked
  }

  function Entitled(c: ClaimStatus): int {
    c.unlockedAmount + c.lockedAmount
  }

  /** What a claimant has not withdrawn yet of the locked amount. */
  function Outstanding(c: ClaimStatus): int {
    c.lockedAmount - c.lockedAmountWithdrawn
  }

  /** Every claim status was granted by a leaf. */
  ghost predicate Granted(statuses: map<Pubkey, ClaimStatus>, es: seq<Entitlement>) {
    forall c :: c in statuses ==> Entitlement(c, statuses[c].unlockedAmount, statuses[c].lockedAmount) in es
  }

  /**
   The root is this tree's, the cap and the node limit have room for all of it, and all claims so far
   are its leaves.
   */
  ghost predicate FromTree(h: HashFn, s: State, es: seq<Entitlement>) {
    && es != []
    && |es| <= s.d.maxNumNodes
    && s.d.root == MerkleRoot(h, es)
    && SumSeq(es, GrantTotal) <= s.d.maxTotalClaim
    && Granted(s.statuses, es)
  }

  // ----- Claims are bounded by the tree -----

  lemma {:induction false} GrantedWithin(m: map<Pubkey, ClaimStatus>, es: seq<Entitlement>)
    requires Granted(m, es)
    ensures |m| <= |es|
    ensures SumMap(m, Entitled) <= SumSeq(es, GrantTotal)
    decreases |es|
  {
    if es == [] {
      assert m == map[] by {
        if c :| c in m {
          assert false;
        }
      }
    } else {
      var init, x := es[..|es| - 1], es[|es| - 1];
      assert es == init + [x];
      var c := x.claimant;
      if c in m && Entitlement(c, m[c].unlockedAmount, m[c].lockedAmount) == x {
        GrantedWithin(m - {c}, init);
        SumMapRemove(m, Entitled, c);
        assert (m - {c}).Keys == m.Keys - {c};
      } else {
        GrantedWithin(m, init);
      }
    }
  }

  lemma {:induction false} EntitledSplits(m: map<Pubkey, ClaimStatus>)
    ensures SumMap(m, Entitled) == SumMap(m, PaidOut) + SumMap(m, Forgone) + SumMap(m, Outstanding)
    decreases |m|
  {
    if m != map[] {
      var c :| c in m;
      SumMapRemove(m, Entitled, c);
      SumMapRemove(m, PaidOut, c);
      SumMapRemove(m, Forgone, c);
      SumMapRemove(m, Outstanding, c);
      EntitledSplits(m - {c});
    }
  }

  lemma {:induction false} OutstandingNonNegative(m: map<Pubkey, ClaimStatus>)
    requires forall c :: c in m ==> m[c].lockedAmountWithdrawn <= m[c].lockedAmount
    ensures SumMap(m, Outstanding) >= 0
    ensures forall c :: c in m ==> Outstanding(m[c]) <= SumMap(m, Outstanding)
    decreases |m|
  {
    forall c | c in m ensures 0 <= Outstanding(m[c]) <= SumMap(m, Outstanding) {
      SumMapRemove(m, Outstanding, c);
      OutstandingNonNegative(m - {c});
    }
    if m != map[] {
      var c :| c in m;
      assert 0 <= Outstanding(m[c]) <= SumMap(m, Outstanding);
    }
  }

  /** Paid, forgone and outstanding amounts together stay within the cap. */
  lemma CapCoversClaims(h: HashFn, s: State, es: seq<Entitlement>)
    requires Books(s) && FromTree(h, s, es)
    ensures s.d.totalAmountClaimed + s.d.totalAmountForgone + SumMap(s.statuses, Outstanding) <= s.d.maxTotalClaim
    ensures s.d.totalAmountClaimed + s.d.totalAmountForgone <= s.d.maxTotalClaim
  {
    GrantedWithin(s.statuses, es);
    EntitledSplits(s.statuses);
    OutstandingNonNegative(s.statuses);
  }

  /** There is room for one more unclaimed leaf: in the node count and under the cap. */
  lemma RoomForUnclaimed(h: HashFn, s: State, es: seq<Entitlement>, e: Entitlement)
    requires Books(s) && FromTree(h, s, es) && e in es && e.claimant !in s.statuses
    ensures s.d.numNodesClaimed + 1 <= s.d.maxNumNodes
    ensures s.d.totalAmountClaimed + s.d.totalAmountForgone + GrantTotal(e) <= s.d.maxTotalClaim
  {
    var status := ClaimStatus(e.claimant, e.locked, 0, e.unlocked, 0, false, s.key);
    var more := s.statuses[e.claimant := status];
    GrantedWithin(more, es);
    SumMapPut(s.statuses, Entitled, e.claimant, status);
    EntitledSplits(s.statuses);
    OutstandingNonNegative(s.statuses);
  }

  // ----- Claims go through -----

  /**
   An unclaimed leaf with its stored proof passes every check of a new claim in an enabled, started,
   funded distributor; the only failure left is a vesting window too long for an i64, while it is open.
   */
  lemma LeafClaimSucceeds(h: HashFn, s: State, es: seq<Entitlement>, i: nat, clk: Clock, to: Pubkey)
    requires Inv(s) && FromTree(h, s, es) && Surplus(s) >= 0
    requires i < |es| && es[i].claimant !in s.statuses
    requires MayClaim(s, clk, es[i].claimant, to) && s.d.startTs <= clk.ts
    ensures NewClaim(h, s, clk, es[i].claimant, to, es[i].unlocked, es[i].locked, StoredProof(h, es, i)).Ok?
       <==> !WindowOverflows(clk.ts, s.d.startTs, s.d.endTs)
  {
    RoomForUnclaimed(h, s, es, es[i]);
    StoredProofAccepted(h, es, i);
    ReleasedMonotone(es[i].unlocked, clk.ts, clk.ts, s.d.startTs, s.d.endTs);
    NewClaimSucceedsIff(h, s, clk, es[i].claimant, to, es[i].unlocked, es[i].locked, StoredProof(h, es, i));
  }

  /** Whoever has claimed can withdraw as soon as something more has vested: funds and cap always suffice. */
  lemma LockedClaimSucceeds(h: HashFn, s: State, es: seq<Entitlement>, c: Pubkey, clk: Clock, to: Pubkey)
    requires Inv(s) && FromTree(h, s, es) && Surplus(s) >= 0
    requires c in s.statuses && MayClaim(s, clk, c, to)
    requires s.statuses[c].lockedAmountWithdrawn <= Vested(s.statuses[c].lockedAmount, clk.ts, s.d.startTs, s.d.endTs)
    ensures ClaimLocked(s, clk, c, to).Ok?
       <==> && !WindowOverflows(clk.ts, s.d.startTs, s.d.endTs)
            && s.statuses[c].lockedAmountWithdrawn < Vested(s.statuses[c].lockedAmount, clk.ts, s.d.startTs, s.d.endTs)
  {
    var x := s.statuses[c];
    CapCoversClaims(h, s, es);
    OutstandingNonNegative(s.statuses);
    VestedWithin(x.lockedAmount, clk.ts, s.d.startTs, s.d.endTs);
    WithdrawalOutcome(s, clk, c, to, Vested(x.lockedAmount, clk.ts, s.d.startTs, s.d.endTs));
  }

  // ----- Honest runs -----

  /** The trees behind a run's re-roots: entry i is read only if event i is a re-root. */
  type Trees = seq<seq<Entitlement>>

  /**
   A re-root published from a tree that keeps all claimed leaves, fits the node limit and sums to at
   most the new cap.
   */
  ghost predicate HonestReRoot(h: HashFn, s: State, ins: Instruction, es: seq<Entitlement>)
    requires ins.SetRootIx?
  {
    && es != [] && |es| <= s.d.maxNumNodes
    && ins.newRoot == MerkleRoot(h, es)
    && SumSeq(es, GrantTotal) <= ins.newMax
    && Granted(s.statuses, es)
  }

  ghost predicate HonestRun(h: HashFn, s: State, run: Run, trees: Trees) {
    && |trees| == |run|
    && (run != [] ==>
        && HonestRun(h, s, Init(run), trees[..|run| - 1])
        && (Last(run).ins.SetRootIx? && LastSucceeds(h, s, run) ==>
            HonestReRoot(h, After(h, s, Init(run)), Last(run).ins, trees[|run| - 1])))
  }

  /** The tree in force after a run. */
  ghost function TreeAfter(h: HashFn, s: State, run: Run, trees: Trees, es: seq<Entitlement>): seq<Entitlement>
    requires |trees| == |run|
  {
    if run == [] then es
    else if Last(run).ins.SetRootIx? && LastSucceeds(h, s, run) then trees[|run| - 1]
    else TreeAfter(h, s, Init(run), trees[..|run| - 1], es)
  }

  /** The first collision that an accepted proof of the run exposes. */
  ghost function RunCollision(h: HashFn, s: State, run: Run, trees: Trees,
                              es: seq<Entitlement>): Option<(seq<Byte>, seq<Byte>)>
    requires |trees| == |run|
  {
    if run == [] then None
    else
      var earlier := RunCollision(h, s, Init(run), trees[..|run| - 1], es);
      var tree := TreeAfter(h, s, Init(run), trees[..|run| - 1], es);
      var ins := Last(run).ins;
      if earlier.Some? then earlier
      else if ins.NewClaimIx? && LastSucceeds(h, s, run) && tree != [] then
        ClaimCollision(h, tree, ins.proof, Entitlement(ins.claimant, ins.unlocked, ins.locked))
      else None
  }

  lemma FromTreeStep(h: HashFn, s: State, e: Event, s': State, es: seq<Entitlement>)
    requires FromTree(h, s, es) && Effect(s, e, s') && !e.ins.SetRootIx?
    requires e.ins.NewClaimIx? ==> Entitlement(e.ins.claimant, e.ins.unlocked, e.ins.locked) in es
    ensures FromTree(h, s', es)
  {
    if !IsClaim(e.ins) {
      OtherStepsKeepBooks(s, e, s');
      Constants(s, e, s');
    }
  }

  /** Through any honest run the state stays tied to the tree in force, or a hash collision has been exhibited. */
  lemma {:induction false} HonestRunStaysOnTree(h: HashFn, s: State, run: Run, trees: Trees, es: seq<Entitlement>)
    requires FromTree(h, s, es) && HonestRun(h, s, run, trees)
    ensures var c := RunCollision(h, s, run, trees, es);
      if c.Some? then Collides(h, c.value.0, c.value.1)
      else FromTree(h, After(h, s, run), TreeAfter(h, s, run, trees, es))
  {
    if run != [] {
      var before := trees[..|run| - 1];
      HonestRunStaysOnTree(h, s, Init(run), before, es);
      if RunCollision(h, s, run, trees, es).None? || RunCollision(h, s, Init(run), before, es).None? {
        var t, t', e := After(h, s, Init(run)), After(h, s, run), Last(run);
        var tree := TreeAfter(h, s, Init(run), before, es);
        LastStep(h, s, run);
        if LastSucceeds(h, s, run) {
          if e.ins.SetRootIx? {
          } else {
            if e.ins.NewClaimIx? {
              NewClaimEffect(h, t, e.clk, e.ins.claimant, e.ins.to, e.ins.unlocked, e.ins.locked, e.ins.proof);
              VerifierSound(h, tree, e.ins.proof, Entitlement(e.ins.claimant, e.ins.unlocked, e.ins.locked));
            }
            if RunCollision(h, s, run, trees, es).None? {
              FromTreeStep(h, t, e, t', tree);
            }
          }
        }
      }
    }
  }

  /**
   Every honest claim goes through, in any order and across any number of honest re-roots: after any
   honest run of a funded distributor that is not clawed back, an unclaimed leaf of the tree in force
   is paid when it is presented with its stored proof, unless the hash function has been broken.
   */
  lemma HonestClaimsGoThrough(h: HashFn, s: State, run: Run, trees: Trees, es: seq<Entitlement>, i: nat, clk: Clock,
                              to: Pubkey)
    requires Inv(s) && FromTree(h, s, es) && HonestRun(h, s, run, trees)
    requires Surplus(s) + Deposits(h, s, run) >= 0
    requires i < |TreeAfter(h, s, run, trees, es)|
    requires var t, e := After(h, s, run), TreeAfter(h, s, run, trees, es)[i];
      e.claimant !in t.statuses && MayClaim(t, clk, e.claimant, to) && t.d.startTs <= clk.ts
    ensures var t, tree := After(h, s, run), TreeAfter(h, s, run, trees, es);
      var c := RunCollision(h, s, run, trees, es);
      if c.Some? then Collides(h, c.value.0, c.value.1)
      else
        NewClaim(h, t, clk, tree[i].claimant, to, tree[i].unlocked, tree[i].locked, StoredProof(h, tree, i)).Ok?
        <==> !WindowOverflows(clk.ts, s.d.startTs, s.d.endTs)
  {
    HonestRunStaysOnTree(h, s, run, trees, es);
    if RunCollision(h, s, run, trees, es).None? {
      RunKeepsInv(h, s, run);
      RunKeepsDistributor(h, s, run);
      SurplusConserved(h, s, run);
      LeafClaimSucceeds(h, After(h, s, run), TreeAfter(h, s, run, trees, es), i, clk, to);
    }
  }

  /**
   Every honest withdrawal goes through: after any honest run from the start of a funded distributor,
   with a clock that has not gone back, a claimant can withdraw exactly when the window is computable
   and more has vested than was withdrawn.
   */
  lemma HonestWithdrawalsGoThrough(h: HashFn, s: State, run: Run, trees: Trees, es: seq<Entitlement>,
                                   c: Pubkey, clk: Clock, to: Pubkey)
    requires Inv(s) && s.statuses == map[] && FromTree(h, s, es) && HonestRun(h, s, run, trees)
    requires Surplus(s) + Deposits(h, s, run) >= 0
    requires forall i :: 0 <= i < |run| ==> run[i].clk.ts <= clk.ts
    requires c in After(h, s, run).statuses && MayClaim(After(h, s, run), clk, c, to)
    ensures var t, col := After(h, s, run), RunCollision(h, s, run, trees, es);
      if col.Some? then Collides(h, col.value.0, col.value.1)
      else
        ClaimLocked(t, clk, c, to).Ok?
        <==> && !WindowOverflows(clk.ts, s.d.startTs, s.d.endTs)
             && t.statuses[c].lockedAmountWithdrawn < Vested(t.statuses[c].lockedAmount, clk.ts, s.d.startTs, s.d.endTs)
  {
    HonestRunStaysOnTree(h, s, run, trees, es);
    if RunCollision(h, s, run, trees, es).None? {
      RunKeepsInv(h, s, run);
      RunKeepsDistributor(h, s, run);
      SurplusConserved(h, s, run);
      WithdrawnIsVested(h, s, run, c, clk);
      LockedClaimSucceeds(h, After(h, s, run), TreeAfter(h, s, run, trees, es), c, clk, to);
    }
  }

  /** In honest runs paid plus forgone never passes the cap, although a withdrawal checks only the paid part. */
  lemma HonestRunsRespectCap(h: HashFn, s: State, run: Run, trees: Trees, es: seq<Entitlement>)
    requires Inv(s) && FromTree(h, s, es) && HonestRun(h, s, run, trees)
    ensures var t, c := After(h, s, run), RunCollision(h, s, run, trees, es);
      if c.Some? then Collides(h, c.value.0, c.value.1)
      else t.d.totalAmountClaimed + t.d.totalAmountForgone + SumMap(t.statuses, Outstanding) <= t.d.maxTotalClaim
  {
    HonestRunStaysOnTree(h, s, run, trees, es);
    RunKeepsInv(h, s, run);
    if RunCollision(h, s, run, trees, es).None? {
      CapCoversClaims(h, After(h, s, run), TreeAfter(h, s, run, trees, es));
    }
  }

  // ----- Published trees start honest runs -----

  lemma {:induction false} TotalOfGrants(nodes: seq<AirdropTree.TreeNode>)
    ensures SumSeq(AirdropTree.Grants(nodes), GrantTotal) == AirdropTree.Total(nodes)
  {
    var es := AirdropTree.Grants(nodes);
    if nodes != [] {
      var init := nodes[..|nodes| - 1];
      TotalOfGrants(init);
      assert AirdropTree.Grants(init) == es[..|es| - 1];
    }
  }

  /** A fresh distributor created from a publishable tree is tied to that tree. */
  lemma PublishedTreeIsHonest(h: HashFn, t: AirdropTree.AirdropTree, s: State)
    requires AirdropTree.Publishable(h, t) && s.statuses == map[]
    requires s.d.root == t.root && s.d.maxTotalClaim == t.maxTotalClaim && s.d.maxNumNodes == t.maxNumNodes
    ensures FromTree(h, s, AirdropTree.Grants(t.nodes))
    ensures forall i :: 0 <= i < |t.nodes| ==> t.nodes[i].proof == Some(StoredProof(h, AirdropTree.Grants(t.nodes), i))
  {
    TotalOfGrants(t.nodes);
  }

  /** No trees are needed for a run without re-roots. */
  function NoTrees(n: nat): (r: Trees)
    ensures |r| == n
  {
    if n == 0 then [] else NoTrees(n - 1) + [[]]
  }

  /** No re-root of the run succeeds. */
  ghost predicate KeepsRoot(h: HashFn, s: State, run: Run) {
    run != [] ==> KeepsRoot(h, s, Init(run)) && !(LastSucceeds(h, s, run) && Last(run).ins.SetRootIx?)
  }

  lemma {:induction false} WithoutReRoots(h: HashFn, s: State, run: Run, es: seq<Entitlement>)
    requires KeepsRoot(h, s, run)
    ensures HonestRun(h, s, run, NoTrees(|run|)) && TreeAfter(h, s, run, NoTrees(|run|), es) == es
  {
    if run != [] {
      WithoutReRoots(h, s, Init(run), es);
      assert NoTrees(|run|)[..|run| - 1] == NoTrees(|run| - 1);
    }
  }

  /**
   End to end: a distributor created from a built tree and funded pays any node of the tree file that
   has not claimed yet, with the proof in the file, after any run in which no re-root succeeds, unless the hash
   function has been broken.
   */
  lemma PublishedNodesCanClaim(h: HashFn, t: AirdropTree.AirdropTree, s: State, run: Run, i: nat, clk: Clock,
                               to: Pubkey)
    requires AirdropTree.Publishable(h, t) && Inv(s) && s.statuses == map[]
    requires s.d.root == t.root && s.d.maxTotalClaim == t.maxTotalClaim && s.d.maxNumNodes == t.maxNumNodes
    requires KeepsRoot(h, s, run)
    requires Surplus(s) + Deposits(h, s, run) >= 0
    requires i < |t.nodes| && t.nodes[i].claimant !in After(h, s, run).statuses
    requires MayClaim(After(h, s, run), clk, t.nodes[i].claimant, to) && s.d.startTs <= clk.ts
    ensures var n, c := t.nodes[i], RunCollision(h, s, run, NoTrees(|run|), AirdropTree.Grants(t.nodes));
      if c.Some? then Collides(h, c.value.0, c.value.1)
      else
        n.proof.Some? &&
        (NewClaim(h, After(h, s, run), clk, n.claimant, to, n.amount, n.Locked(), n.proof.value).Ok?
         <==> !WindowOverflows(clk.ts, s.d.startTs, s.d.endTs))
  {
    var es := AirdropTree.Grants(t.nodes);
    PublishedTreeIsHonest(h, t, s);
    WithoutReRoots(h, s, run, es);
    RunKeepsDistributor(h, s, run);
    assert es[i] == t.nodes[i].Grant();
    HonestClaimsGoThrough(h, s, run, NoTrees(|run|), es, i, clk, to);
  }

  // ----- The API's quote is what the chain pays -----

  /** New claim, then a withdrawal, at one and the same moment. */
  function ClaimBoth(clk: Clock, e: Entitlement, to: Pubkey, proof: seq<Bytes32>): Run {
    [Event(clk, NewClaimIx(e.claimant, to, e.unlocked, e.locked, proof)), Event(clk, ClaimLockedIx(e.claimant, to))]
  }

  lemma AfterTwo(h: HashFn, s: State, a: Event, b: Event)
    ensures After(h, s, [a, b]) == Execute(h, Execute(h, s, a), b)
  {
    assert [a, b][..1] == [a] && [a][..0] == [];
    assert After(h, s, [a]) == Execute(h, s, a);
  }

  /** What a new claim of a leaf moves, and that it leaves the state on the tree. */
  lemma LeafClaimPays(h: HashFn, s: State, es: seq<Entitlement>, i: nat, clk: Clock, to: Pubkey, a: Event)
    requires Inv(s) && FromTree(h, s, es) && Surplus(s) >= 0
    requires i < |es| && es[i].claimant !in s.statuses
    requires MayClaim(s, clk, es[i].claimant, to) && s.d.startTs <= clk.ts
    requires !WindowOverflows(clk.ts, s.d.startTs, s.d.endTs)
    requires a == Event(clk, NewClaimIx(es[i].claimant, to, es[i].unlocked, es[i].locked, StoredProof(h, es, i)))
    ensures var t, paid, c := Execute(h, s, a), Released(es[i].unlocked, clk.ts, s.d.startTs, s.d.endTs),
              es[i].claimant;
      && Inv(t) && FromTree(h, t, es) && Surplus(t) >= 0 && MayClaim(t, clk, c, to)
      && c in t.statuses && t.statuses[c].lockedAmount == es[i].locked && t.statuses[c].lockedAmountWithdrawn == 0
      && Moved(s, t, to, paid)
  {
    var e, t := es[i], Execute(h, s, a);
    LeafClaimSucceeds(h, s, es, i, clk, to);
    NewClaimEffect(h, s, clk, e.claimant, to, e.unlocked, e.locked, StoredProof(h, es, i));
    InvStep(h, s, a);
    StepEffect(h, s, a);
    FromTreeStep(h, s, a, t, es);
    SurplusStep(s, a, t);
  }

  /** Exactly this amount left the vault for `to` and was booked as claimed. */
  ghost predicate Moved(s: State, s': State, to: Pubkey, amount: nat) {
    && SameDistributor(s, s')
    && to in s.tokens && to in s'.tokens
    && s'.Vault() == s.Vault() - amount
    && s'.tokens[to].amount == s.tokens[to].amount + amount
    && s'.d.totalAmountClaimed == s.d.totalAmountClaimed + amount
  }

  /** What a first withdrawal moves: all that has vested, possibly nothing. */
  lemma FirstWithdrawalPays(h: HashFn, s: State, es: seq<Entitlement>, c: Pubkey, clk: Clock, to: Pubkey)
    requires Inv(s) && FromTree(h, s, es) && Surplus(s) >= 0
    requires c in s.statuses && MayClaim(s, clk, c, to) && s.statuses[c].lockedAmountWithdrawn == 0
    requires !WindowOverflows(clk.ts, s.d.startTs, s.d.endTs)
    ensures Moved(s, Execute(h, s, Event(clk, ClaimLockedIx(c, to))), to,
                  Vested(s.statuses[c].lockedAmount, clk.ts, s.d.startTs, s.d.endTs))
  {
    LockedClaimSucceeds(h, s, es, c, clk, to);
    if ClaimLocked(s, clk, c, to).Ok? {
      ClaimLockedEffect(s, clk, c, to);
    }
  }

  /**
   While claims are open, the API's quote for an unclaimed leaf is exactly what claiming both parts at
   that moment moves out of the vault and to the claimant.
   */
  lemma QuoteEqualsPayout(h: HashFn, s: State, es: seq<Entitlement>, i: nat, clk: Clock, to: Pubkey)
    requires Inv(s) && FromTree(h, s, es) && Surplus(s) >= 0
    requires i < |es| && es[i].claimant !in s.statuses
    requires MayClaim(s, clk, es[i].claimant, to) && s.d.startTs <= clk.ts
    requires !WindowOverflows(clk.ts, s.d.startTs, s.d.endTs)
    ensures var q := Quote(es[i].unlocked, es[i].locked, clk.ts, s.d.startTs, s.d.endTs, 50);
      q.Some? && Moved(s, After(h, s, ClaimBoth(clk, es[i], to, StoredProof(h, es, i))), to, q.value)
  {
    var e := es[i];
    RoomForUnclaimed(h, s, es, e);
    QuoteIsSchedule(e.unlocked, e.locked, clk.ts, s.d.startTs, s.d.endTs);
    var both := ClaimBoth(clk, e, to, StoredProof(h, es, i));
    AfterTwo(h, s, both[0], both[1]);
    LeafClaimPays(h, s, es, i, clk, to, both[0]);
    FirstWithdrawalPays(h, Execute(h, s, both[0]), es, e.claimant, clk, to);
  }

  /** A successful withdrawal keeps paid plus forgone under the cap exactly when the cap left room for it. */
  lemma WithdrawalKeepsCapIff(s: State, clk: Clock, c: Pubkey, to: Pubkey)
    requires ClaimLocked(s, clk, c, to).Ok?
    ensures c in s.statuses
    ensures var s', x := ClaimLocked(s, clk, c, to).value, s.statuses[c];
      s'.d.totalAmountClaimed + s'.d.totalAmountForgone <= s'.d.maxTotalClaim <==>
      Vested(x.lockedAmount, clk.ts, s.d.startTs, s.d.endTs) - x.lockedAmountWithdrawn
        <= s.d.maxTotalClaim - s.d.totalAmountClaimed - s.d.totalAmountForgone
  {
    ClaimLockedEffect(s, clk, c, to);
  }
}
