/**
 From a raw row of a market file to a payment on the chain: aggregation, tree building, deployment and
 claiming composed.
 */
module EndToEnd {
  import opened Bytes
  import opened Sums
  import opened Ordering
  import opened Aggregate
  import opened MerkleVerify
  import opened Sharding
  import opened Vesting
  import opened Distributor
  import opened Invariants
  import opened Runs
  import opened Honest

  /** What the raw rows of all files ask for one key string on one mint, in base units. */
  ghost predicate Owed(e: Entitlement, rows: seq<Row>, mint: Text, key: Text, f: Format) {
    && f.parse(key) == Some(e.claimant)
    && InBaseUnits(e.unlocked, MintAmount(rows, mint, key), f)
    && InBaseUnits(e.locked, MintLocked(rows, mint, key), f)
  }

  // ----- Every row reaches exactly one leaf -----

  /** No other leaf of these trees is for this claimant. */
  ghost predicate OnlyLeaf(trees: seq<AirdropTree.AirdropTree>, k: nat, j: nat)
    requires k < |trees| && j < |trees[k].nodes|
  {
    forall k', j' :: 0 <= k' < |trees| && 0 <= j' < |trees[k'].nodes| ==>
      (trees[k'].nodes[j'].claimant == trees[k].nodes[j].claimant ==> k' == k && j' == j)
  }

  ghost predicate OneLeafEach(es: seq<Entitlement>) {
    forall a, b :: 0 <= a < b < |es| ==> es[a].claimant != es[b].claimant
  }

  lemma SamePlace(trees: seq<AirdropTree.AirdropTree>, k: nat, j: nat, k': nat, j': nat)
    requires OneLeafEach(FlatMap(trees, LeavesOf))
    requires k < |trees| && j < |trees[k].nodes| && k' < |trees| && j' < |trees[k'].nodes|
    requires trees[k].nodes[j].claimant == trees[k'].nodes[j'].claimant
    ensures k' == k && j' == j
  {
    FlatMapAt(trees, LeavesOf, k, j);
    FlatMapAt(trees, LeavesOf, k', j');
    var a, b := Offset(trees, LeavesOf, k) + j, Offset(trees, LeavesOf, k') + j';
    assert a == b;
    PlacesDiffer(trees, LeavesOf, k, j, k', j');
  }

  /** Each row with a key of its own becomes exactly one leaf over all shards. */
  lemma EntryHasLeaf(h: HashFn, trees: seq<AirdropTree.AirdropTree>, entries: seq<CsvEntry>, r: nat,
                     n: nat, start: u64, f: Format) returns (k: nat, j: nat)
    requires n >= 1 && TreesOf(h, trees, entries, n, start, f) && DistinctKeys(entries) && Injective(f.parse)
    requires r < |entries|
    ensures k < |trees| && j < |trees[k].nodes| && OnlyLeaf(trees, k, j)
    ensures FromCsv(entries[r], f).Some? && trees[k].nodes[j].Grant() == FromCsv(entries[r], f).value.Grant()
  {
    LeavesAreRows(h, trees, entries, n, start, f);
    assert OneLeafEach(FlatMap(trees, LeavesOf));
    assert Asked(entries, f)[r] == FromCsv(entries[r], f).value.Grant();
    k, j := FlatMapPlace(trees, LeavesOf, r);
    forall k', j' | 0 <= k' < |trees| && 0 <= j' < |trees[k'].nodes|
      && trees[k'].nodes[j'].claimant == trees[k].nodes[j].claimant
      ensures k' == k && j' == j
    {
      SamePlace(trees, k, j, k', j');
    }
  }

  /** A summed row converts to what the raw rows ask for. */
  lemma ConvertedIsOwed(e: CsvEntry, rows: seq<Row>, mint: Text, key: Text, f: Format)
    requires IsSummed(e, rows, mint, key) && FromCsv(e, f).Some?
    ensures Owed(FromCsv(e, f).value.Grant(), rows, mint, key, f)
  {
    FromCsvScales(e, f);
  }

  /**
   For every raw row of every market file, exactly one leaf over all trees of its mint is for the row's
   claimant, and it holds the scaled sums of all that claimant's rows on the mint.
   */
  lemma RowHasLeaf(h: HashFn, out: seq<MergedMint>, inputs: seq<Input>, p: nat, q: nat, m: nat,
                   trees: seq<AirdropTree.AirdropTree>, n: nat, start: u64, f: Format) returns (k: nat, j: nat)
    requires IsAggregate(out, inputs) && Injective(f.parse)
    requires p < |inputs| && q < |inputs[p].entries|
    requires m < |out| && out[m].mint == inputs[p].market.mint
    requires n >= 1 && TreesOf(h, trees, out[m].entries, n, start, f)
    ensures k < |trees| && j < |trees[k].nodes| && OnlyLeaf(trees, k, j)
    ensures Owed(trees[k].nodes[j].Grant(), Rows(inputs), inputs[p].market.mint, inputs[p].entries[q].pubkey, f)
  {
    var i, r := EveryRowIsPaid(out, inputs, p, q);
    SameMint(out, inputs, i, m);
    AggregatedKeysDistinct(out, inputs, m);
    k, j := EntryHasLeaf(h, trees, out[m].entries, r, n, start, f);
    ConvertedIsOwed(out[m].entries[r], Rows(inputs), inputs[p].market.mint, inputs[p].entries[q].pubkey, f);
  }

  lemma SameMint(out: seq<MergedMint>, inputs: seq<Input>, i: nat, m: nat)
    requires IsAggregate(out, inputs) && i < |out| && m < |out| && out[i].mint == out[m].mint
    ensures i == m
  {
    if i < m {
      OutputIsSorted(out, inputs, i);
    } else if m < i {
      OutputIsSorted(out, inputs, m);
    }
  }

  // ----- And the leaf is paid -----

  /** A distributor just created for a tree file. */
  ghost predicate Deployed(t: AirdropTree.AirdropTree, s: State) {
    && Inv(s) && s.statuses == map[]
    && s.d.root == t.root && s.d.maxTotalClaim == t.maxTotalClaim && s.d.maxNumNodes == t.maxNumNodes
  }

  /** Everything that creating a distributor takes besides the tree file. */
  datatype Launch = Launch(
    key: Pubkey, burner: Pubkey, tokens: Tokens, supply: u64, clk: Clock,
    mint: Pubkey, vault: Pubkey, receiver: Pubkey, admin: Pubkey,
    startTs: i64, endTs: i64, clawbackStartTs: i64, enableSlot: u64, closable: bool)

  /** The distributor that the command line creates for a tree file, in a mint whose accounts add up. */
  ghost predicate Launched(t: AirdropTree.AirdropTree, l: Launch, s: State) {
    && t.maxNumNodes <= U64_MAX
    && l.key != l.burner && l.supply == SumMap(l.tokens, Amount)
    && NewDistributor(l.key, l.burner, l.tokens, l.supply, l.clk, t.version, l.mint, l.vault, l.receiver, l.admin,
                      t.root, t.maxTotalClaim, t.maxNumNodes,
                      l.startTs, l.endTs, l.clawbackStartTs, l.enableSlot, l.closable) == Ok(s)
  }

  /** Creating a distributor with the file's version, root, cap and node count deploys the file. */
  lemma LaunchDeploys(t: AirdropTree.AirdropTree, l: Launch, s: State)
    requires Launched(t, l, s)
    ensures Deployed(t, s) && s.d.version == t.version
    ensures s.tokens == l.tokens && s.d.tokenVault == l.vault
    ensures s.d.startTs == l.startTs && s.d.endTs == l.endTs && s.d.enableSlot == l.enableSlot
  {
    NewDistributorInv(l.key, l.burner, l.tokens, l.supply, l.clk, t.version, l.mint, l.vault, l.receiver, l.admin,
                      t.root, t.maxTotalClaim, t.maxNumNodes,
                      l.startTs, l.endTs, l.clawbackStartTs, l.enableSlot, l.closable);
  }

  /** After a run without re-roots, a funded distributor still owes this claimant and vesting is over. */
  ghost predicate CanCollect(h: HashFn, s: State, run: Run, c: Pubkey, clk: Clock, to: Pubkey) {
    && KeepsRoot(h, s, run) && Surplus(s) + Deposits(h, s, run) >= 0
    && c !in After(h, s, run).statuses && MayClaim(After(h, s, run), clk, c, to)
    && s.d.endTs <= clk.ts
  }

  /** Claiming both parts with the node's own proof pays this amount, unless the hash function has been broken. */
  ghost predicate Collects(h: HashFn, t: AirdropTree.AirdropTree, s: State, run: Run, n: AirdropTree.TreeNode,
                           clk: Clock, to: Pubkey, amount: int)
  {
    var col := RunCollision(h, s, run, NoTrees(|run|), AirdropTree.Grants(t.nodes));
    if col.Some? then Collides(h, col.value.0, col.value.1)
    else
      && n.proof.Some? && amount >= 0
      && var s' := After(h, s, run);
         Moved(s', After(h, s', ClaimBoth(clk, n.Grant(), to, n.proof.value)), to, amount)
  }

  /** From the end of vesting on, claiming both parts of an unclaimed leaf moves its whole total. */
  lemma LeafCollectsTotal(h: HashFn, s: State, es: seq<Entitlement>, i: nat, clk: Clock, to: Pubkey)
    requires Inv(s) && FromTree(h, s, es) && Surplus(s) >= 0
    requires i < |es| && es[i].claimant !in s.statuses
    requires MayClaim(s, clk, es[i].claimant, to) && s.d.endTs <= clk.ts
    ensures Moved(s, After(h, s, ClaimBoth(clk, es[i], to, StoredProof(h, es, i))), to, GrantTotal(es[i]))
  {
    RoomForUnclaimed(h, s, es, es[i]);
    QuoteIsSchedule(es[i].unlocked, es[i].locked, clk.ts, s.d.startTs, s.d.endTs);
    QuoteEqualsPayout(h, s, es, i, clk, to);
  }

  /** Without re-roots a deployed distributor stays on its tree file, unless the hash function has been broken. */
  lemma DeployedStaysOnTree(h: HashFn, t: AirdropTree.AirdropTree, s: State, run: Run)
    requires AirdropTree.Publishable(h, t) && Deployed(t, s) && KeepsRoot(h, s, run)
    ensures var es := AirdropTree.Grants(t.nodes);
      var col := RunCollision(h, s, run, NoTrees(|run|), es);
      if col.Some? then Collides(h, col.value.0, col.value.1) else FromTree(h, After(h, s, run), es)
  {
    var es := AirdropTree.Grants(t.nodes);
    PublishedTreeIsHonest(h, t, s);
    WithoutReRoots(h, s, run, es);
    HonestRunStaysOnTree(h, s, run, NoTrees(|run|), es);
  }

  /** From the end of vesting on, an unclaimed node of a deployed tree file collects its whole total. */
  lemma NodeCollectsTotal(h: HashFn, t: AirdropTree.AirdropTree, s: State, run: Run, i: nat, clk: Clock, to: Pubkey,
                          amount: int)
    requires AirdropTree.Publishable(h, t) && Deployed(t, s)
    requires i < |t.nodes| && CanCollect(h, s, run, t.nodes[i].claimant, clk, to)
    requires amount == GrantTotal(t.nodes[i].Grant())
    ensures Collects(h, t, s, run, t.nodes[i], clk, to, amount)
  {
    var es := AirdropTree.Grants(t.nodes);
    DeployedStaysOnTree(h, t, s, run);
    if RunCollision(h, s, run, NoTrees(|run|), es).None? {
      RunKeepsInv(h, s, run);
      RunKeepsDistributor(h, s, run);
      SurplusConserved(h, s, run);
      assert es[i] == t.nodes[i].Grant();
      LeafCollectsTotal(h, After(h, s, run), es, i, clk, to);
    }
  }

  lemma OwedTotal(e: Entitlement, rows: seq<Row>, mint: Text, key: Text, f: Format)
    requires Owed(e, rows, mint, key, f)
    ensures InBaseUnits(GrantTotal(e), KeyTotal(rows, mint)(key), f)
  {
    Distributes(MintAmount(rows, mint, key), MintLocked(rows, mint, key), Pow10(f.decimals));
  }

  /**
   End to end: aggregate the market files, cut a mint's rows into trees and create one distributor per
   tree file. For every raw row there is one of them at which the row's claimant, after any run in which
   no re-root succeeds, collects from the end of vesting on exactly the sum of all their raw rows on the
   mint in base units, with the proof in the tree file; no other one has a leaf for them.
   */
  lemma RowIsPaidInFull(h: HashFn, out: seq<MergedMint>, inputs: seq<Input>, p: nat, q: nat, m: nat,
                        trees: seq<AirdropTree.AirdropTree>, n: nat, start: u64, f: Format,
                        launches: seq<Launch>, created: seq<State>, runs: seq<Run>, clk: Clock, to: Pubkey)
    returns (k: nat, j: nat, paid: nat)
    requires IsAggregate(out, inputs) && Injective(f.parse)
    requires p < |inputs| && q < |inputs[p].entries|
    requires m < |out| && out[m].mint == inputs[p].market.mint
    requires n >= 1 && TreesOf(h, trees, out[m].entries, n, start, f)
    requires |launches| == |created| == |runs| == |trees|
    requires forall i :: 0 <= i < |trees| ==> Launched(trees[i], launches[i], created[i])
    ensures k < |trees| && j < |trees[k].nodes| && OnlyLeaf(trees, k, j)
    ensures f.parse(inputs[p].entries[q].pubkey) == Some(trees[k].nodes[j].claimant)
    ensures InBaseUnits(paid, KeyTotal(Rows(inputs), inputs[p].market.mint)(inputs[p].entries[q].pubkey), f)
    ensures CanCollect(h, created[k], runs[k], trees[k].nodes[j].claimant, clk, to) ==>
      Collects(h, trees[k], created[k], runs[k], trees[k].nodes[j], clk, to, paid)
  {
    k, j := RowHasLeaf(h, out, inputs, p, q, m, trees, n, start, f);
    var node := trees[k].nodes[j];
    paid := GrantTotal(node.Grant());
    OwedTotal(node.Grant(), Rows(inputs), inputs[p].market.mint, inputs[p].entries[q].pubkey, f);
    if CanCollect(h, created[k], runs[k], node.claimant, clk, to) {
      assert TreeFor(h, trees[k], Shards(out[m].entries, n)[k], f, start + k);
      LaunchDeploys(trees[k], launches[k], created[k]);
      NodeCollectsTotal(h, trees[k], created[k], runs[k], j, clk, to, paid);
    }
  }

  // ----- Everyone can be paid -----

  /** Where each claimant wants to be paid. */
  type Payees = Pubkey -> Pubkey

  /** A claimant of the file has an account of their own to be paid to. */
  predicate HasAccount(s: State, c: Pubkey, to: Pubkey) {
    s.CanSign(c) && to in s.tokens && s.tokens[to].owner == c
  }

  ghost predicate AllHaveAccounts(s: State, es: seq<Entitlement>, to: Payees) {
    forall i :: 0 <= i < |es| ==> HasAccount(s, es[i].claimant, to(es[i].claimant))
  }

  /** The distributor is open for claims. */
  predicate Open(s: State, clk: Clock) {
    !s.d.clawedBack && s.d.enableSlot <= clk.slot && s.d.endTs <= clk.ts
  }

  /** Nothing that decides who may claim has changed. */
  ghost predicate SameTerms(s: State, s': State) {
    && SameDistributor(s, s')
    && s'.d.clawedBack == s.d.clawedBack && s'.d.enableSlot == s.d.enableSlot
    && s'.d.root == s.d.root && s'.d.maxTotalClaim == s.d.maxTotalClaim
    && s'.tokens.Keys == s.tokens.Keys
    && forall a :: a in s.tokens ==> s'.tokens[a].owner == s.tokens[a].owner
  }

  lemma ClaimKeepsTerms(s: State, e: Event, s': State)
    requires IsClaim(e.ins) && Effect(s, e, s')
    ensures SameTerms(s, s')
    ensures s'.statuses.Keys == s.statuses.Keys + {e.ins.claimant}
  {
  }

  /** After both claims of a leaf its claimant has a status, the state is still on the tree, and the terms stand. */
  lemma BothClaimsKeepTree(h: HashFn, s: State, es: seq<Entitlement>, i: nat, clk: Clock, to: Pubkey)
    requires Inv(s) && FromTree(h, s, es) && Surplus(s) >= 0
    requires i < |es| && es[i].claimant !in s.statuses
    requires MayClaim(s, clk, es[i].claimant, to) && s.d.endTs <= clk.ts
    ensures var t := After(h, s, ClaimBoth(clk, es[i], to, StoredProof(h, es, i)));
      && Inv(t) && FromTree(h, t, es) && SameTerms(s, t)
      && t.statuses.Keys == s.statuses.Keys + {es[i].claimant}
  {
    var both := ClaimBoth(clk, es[i], to, StoredProof(h, es, i));
    var t := Execute(h, s, both[0]);
    LeafClaimSucceeds(h, s, es, i, clk, to);
    StepEffect(h, s, both[0]);
    ClaimKeepsTerms(s, both[0], t);
    FromTreeStep(h, s, both[0], t, es);
    AfterTwo(h, s, both[0], both[1]);
    RunKeepsInv(h, s, both);
    SecondClaimKeepsTree(h, t, es, both[1]);
  }

  lemma SecondClaimKeepsTree(h: HashFn, t: State, es: seq<Entitlement>, e: Event)
    requires FromTree(h, t, es) && e.ins.ClaimLockedIx? && e.ins.claimant in t.statuses
    ensures var u := Execute(h, t, e);
      FromTree(h, u, es) && SameTerms(t, u) && u.statuses.Keys == t.statuses.Keys
  {
    StepEffect(h, t, e);
    if Apply(h, t, e).Ok? {
      ClaimKeepsTerms(t, e, Execute(h, t, e));
      FromTreeStep(h, t, e, Execute(h, t, e), es);
    }
  }

  /** The first k leaves claim both parts, one after the other. */
  function ClaimAll(h: HashFn, es: seq<Entitlement>, clk: Clock, to: Payees, k: nat): Run
    requires k <= |es|
  {
    if k == 0 then []
    else
      var e := es[k - 1];
      ClaimAll(h, es, clk, to, k - 1) + ClaimBoth(clk, e, to(e.claimant), StoredProof(h, es, k - 1))
  }

  /** The claimants of the first k leaves. */
  function ClaimantsUpTo(es: seq<Entitlement>, k: nat): set<Pubkey>
    requires k <= |es|
  {
    set i | 0 <= i < k :: es[i].claimant
  }

  lemma NextClaimant(es: seq<Entitlement>, k: nat)
    requires k < |es| && OneLeafEach(es)
    ensures es[k].claimant !in ClaimantsUpTo(es, k)
    ensures ClaimantsUpTo(es, k + 1) == ClaimantsUpTo(es, k) + {es[k].claimant}
  {
  }

  /** What holds once the first k leaves have claimed. */
  ghost predicate PaidUpTo(h: HashFn, s: State, t: State, es: seq<Entitlement>, k: nat)
    requires k <= |es|
  {
    && Inv(t) && FromTree(h, t, es) && SameTerms(s, t) && Surplus(t) == Surplus(s)
    && t.d.totalAmountClaimed == SumSeq(es[..k], GrantTotal)
    && t.statuses.Keys == ClaimantsUpTo(es, k)
  }

  /** What one leaf's two claims add. */
  ghost predicate OneMore(h: HashFn, t: State, u: State, es: seq<Entitlement>, e: Entitlement) {
    && Inv(u) && FromTree(h, u, es) && SameTerms(t, u) && Surplus(u) == Surplus(t)
    && u.d.totalAmountClaimed == t.d.totalAmountClaimed + GrantTotal(e)
    && u.statuses.Keys == t.statuses.Keys + {e.claimant}
  }

  lemma LeafClaimsBoth(h: HashFn, t: State, es: seq<Entitlement>, k: nat, clk: Clock, to: Pubkey)
    requires Inv(t) && FromTree(h, t, es) && Surplus(t) >= 0
    requires k < |es| && es[k].claimant !in t.statuses
    requires MayClaim(t, clk, es[k].claimant, to) && t.d.endTs <= clk.ts
    ensures OneMore(h, t, After(h, t, ClaimBoth(clk, es[k], to, StoredProof(h, es, k))), es, es[k])
  {
    LeafCollectsTotal(h, t, es, k, clk, to);
    BothClaimsKeepTree(h, t, es, k, clk, to);
  }

  lemma MayStillClaim(s: State, t: State, clk: Clock, c: Pubkey, to: Pubkey)
    requires Sound(s) && SameTerms(s, t) && Open(s, clk) && HasAccount(s, c, to)
    ensures MayClaim(t, clk, c, to) && t.d.endTs <= clk.ts
  {
  }

  lemma OneMorePaid(h: HashFn, s: State, t: State, u: State, es: seq<Entitlement>, k: nat)
    requires k < |es| && OneLeafEach(es) && PaidUpTo(h, s, t, es, k) && OneMore(h, t, u, es, es[k])
    ensures PaidUpTo(h, s, u, es, k + 1)
  {
    NextClaimant(es, k);
    assert es[..k + 1][..k] == es[..k];
  }

  lemma NextIsPaid(h: HashFn, s: State, t: State, es: seq<Entitlement>, k: nat, clk: Clock, to: Pubkey)
    requires k < |es| && OneLeafEach(es) && Sound(s) && Open(s, clk) && Surplus(s) >= 0
    requires HasAccount(s, es[k].claimant, to) && PaidUpTo(h, s, t, es, k)
    ensures PaidUpTo(h, s, After(h, t, ClaimBoth(clk, es[k], to, StoredProof(h, es, k))), es, k + 1)
  {
    NextClaimant(es, k);
    MayStillClaim(s, t, clk, es[k].claimant, to);
    LeafClaimsBoth(h, t, es, k, clk, to);
    OneMorePaid(h, s, t, After(h, t, ClaimBoth(clk, es[k], to, StoredProof(h, es, k))), es, k);
  }

  lemma {:induction false} ClaimAllPays(h: HashFn, s: State, es: seq<Entitlement>, clk: Clock, to: Payees, k: nat)
    requires k <= |es| && OneLeafEach(es) && Open(s, clk) && AllHaveAccounts(s, es, to) && Surplus(s) >= 0
    requires PaidUpTo(h, s, s, es, 0)
    ensures PaidUpTo(h, s, After(h, s, ClaimAll(h, es, clk, to, k)), es, k)
  {
    if k > 0 {
      var e := es[k - 1];
      var before := ClaimAll(h, es, clk, to, k - 1);
      var both := ClaimBoth(clk, e, to(e.claimant), StoredProof(h, es, k - 1));
      ClaimAllPays(h, s, es, clk, to, k - 1);
      assert HasAccount(s, e.claimant, to(e.claimant));
      NextIsPaid(h, s, After(h, s, before), es, k - 1, clk, to(e.claimant));
      AfterConcat(h, s, before, both);
    }
  }

  /**
   A valid tree file can be paid out completely: at a funded distributor deployed from it, after the end
   of vesting, all its claimants claim both parts one after the other. Then exactly they have claimed,
   the cap has been paid out to the last unit with nothing forgone, and the vault holds the surplus.
   */
  lemma EveryoneIsPaid(h: HashFn, t: AirdropTree.AirdropTree, s: State, clk: Clock, to: Payees)
    requires AirdropTree.Valid(h, t) && Deployed(t, s) && Open(s, clk) && Surplus(s) >= 0
    requires AllHaveAccounts(s, AirdropTree.Grants(t.nodes), to)
    ensures var es := AirdropTree.Grants(t.nodes);
      var end := After(h, s, ClaimAll(h, es, clk, to, |es|));
      && end.statuses.Keys == ClaimantsUpTo(es, |es|)
      && end.d.totalAmountClaimed == t.maxTotalClaim && end.d.totalAmountForgone == 0
      && end.Vault() == Surplus(s)
  {
    var es := AirdropTree.Grants(t.nodes);
    TotalOfGrants(t.nodes);
    assert OneLeafEach(es) by {
      assert forall i :: 0 <= i < |es| ==> es[i].claimant == t.nodes[i].claimant;
    }
    NoneYetPaid(h, s, es);
    ClaimAllPays(h, s, es, clk, to, |es|);
    AllPaid(h, s, After(h, s, ClaimAll(h, es, clk, to, |es|)), es);
  }

  lemma NoneYetPaid(h: HashFn, s: State, es: seq<Entitlement>)
    requires Inv(s) && FromTree(h, s, es) && s.statuses == map[]
    ensures PaidUpTo(h, s, s, es, 0)
  {
    assert es[..0] == [];
  }

  lemma AllPaid(h: HashFn, s: State, end: State, es: seq<Entitlement>)
    requires PaidUpTo(h, s, end, es, |es|) && SumSeq(es, GrantTotal) == s.d.maxTotalClaim
    ensures end.d.totalAmountClaimed == s.d.maxTotalClaim && end.d.totalAmountForgone == 0
    ensures end.Vault() == Surplus(s)
  {
    assert es[..|es|] == es;
    CapCoversClaims(h, end, es);
  }
}
