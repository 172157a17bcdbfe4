/**
 Inputs on which expected properties fail, each run from a distributor that the program really
 creates.
 */
module Counterexamples {
  import opened Bytes
  import opened Sums
  import opened MerkleVerify
  import opened Vesting
  import opened Distributor
  import opened Invariants
  import opened Runs
  import opened Honest
  import opened Funding
  import Aggregate

  // ----- One small distributor -----

  function Key(n: Byte): Pubkey {
    seq(32, _ => n)
  }

  lemma KeysDiffer(a: Byte, b: Byte)
    requires a != b
    ensures Key(a) != Key(b)
  {
    assert Key(a)[0] == a && Key(b)[0] == b;
  }

  const SELF: Pubkey := Key(1)
  const BURNER: Pubkey := Key(2)
  const VAULT: Pubkey := Key(3)
  const RECEIVER: Pubkey := Key(4)
  const CLAIMANT: Pubkey := Key(5)
  const WALLET: Pubkey := Key(6)

  /** The tree's only leaf: 10 unlocked and 5 locked. */
  const LEAF: Entitlement := Entitlement(CLAIMANT, 10, 5)

  lemma NamesDiffer()
    ensures SELF != BURNER && CLAIMANT != SELF && CLAIMANT != BURNER
    ensures VAULT != RECEIVER && VAULT != WALLET && RECEIVER != WALLET
  {
    KeysDiffer(1, 2);
    KeysDiffer(5, 1);
    KeysDiffer(5, 2);
    KeysDiffer(3, 4);
    KeysDiffer(3, 6);
    KeysDiffer(4, 6);
  }

  /** A vault with 15 tokens, the claimant's wallet, and a burner account to claw back to. */
  function Accounts(): Tokens {
    map[VAULT := TokenAccount(SELF, 15)][WALLET := TokenAccount(CLAIMANT, 0)][RECEIVER := TokenAccount(BURNER, 0)]
  }

  lemma AccountsAreBacked()
    ensures SumMap(Accounts(), Amount) == 15
  {
    NamesDiffer();
    var empty: Tokens := map[];
    var one := empty[VAULT := TokenAccount(SELF, 15)];
    var two := one[WALLET := TokenAccount(CLAIMANT, 0)];
    SumMapPut(empty, Amount, VAULT, TokenAccount(SELF, 15));
    SumMapPut(one, Amount, WALLET, TokenAccount(CLAIMANT, 0));
    SumMapPut(two, Amount, RECEIVER, TokenAccount(BURNER, 0));
    assert one == map[VAULT := TokenAccount(SELF, 15)];
  }

  /** Create a distributor for the leaf at time 0, with clawback a day after the end. */
  function Create(h: HashFn, receiver: Pubkey, cap: u64, startTs: i64, endTs: i64,
                  enableSlot: u64): Result<State, ErrorCode>
    requires endTs <= 1_000_000
  {
    NewDistributor(SELF, BURNER, Accounts(), 15, Clock(0, 0), 0, DFX_MAINNET, VAULT, receiver, PROGRAM_ADMIN,
                   MerkleRoot(h, [LEAF]), cap, 1, startTs, endTs, endTs + SECONDS_PER_DAY, enableSlot, false)
  }

  /** What is known of a created distributor. */
  ghost predicate Created(h: HashFn, s: State, receiver: Pubkey, cap: u64, startTs: i64, endTs: i64, enableSlot: u64) {
    && Inv(s) && s.statuses == map[] && s.tokens == Accounts() && s.Vault() == 15
    && s.key == SELF && s.burner == BURNER
    && s.d.totalAmountClaimed == s.d.totalAmountForgone == s.d.numNodesClaimed == 0
    && s.d.root == MerkleRoot(h, [LEAF]) && s.d.maxTotalClaim == cap && s.d.maxNumNodes == 1
    && s.d.startTs == startTs && s.d.endTs == endTs && s.d.clawbackStartTs == endTs + SECONDS_PER_DAY
    && s.d.mint == DFX_MAINNET && s.d.tokenVault == VAULT && s.d.clawbackReceiver == receiver
    && s.d.admin == PROGRAM_ADMIN
    && !s.d.clawedBack && s.d.enableSlot == enableSlot
  }

  /** The program creates the distributor. */
  lemma CreateSucceeds(h: HashFn, receiver: Pubkey, cap: u64, startTs: i64, endTs: i64, enableSlot: u64)
    requires receiver == VAULT || receiver == RECEIVER
    requires startTs < endTs && 0 < endTs <= 1_000_000
    ensures Create(h, receiver, cap, startTs, endTs, enableSlot).Ok?
    ensures Created(h, Create(h, receiver, cap, startTs, endTs, enableSlot).value,
                    receiver, cap, startTs, endTs, enableSlot)
  {
    NamesDiffer();
    AccountsAreBacked();
    NewDistributorInv(SELF, BURNER, Accounts(), 15, Clock(0, 0), 0, DFX_MAINNET, VAULT, receiver, PROGRAM_ADMIN,
                      MerkleRoot(h, [LEAF]), cap, 1, startTs, endTs, endTs + SECONDS_PER_DAY, enableSlot, false);
  }

  /** The claimant may claim, and the empty proof is accepted for the only leaf. */
  lemma LeafMayClaim(h: HashFn, s: State, receiver: Pubkey, cap: u64, startTs: i64, endTs: i64, clk: Clock)
    requires Created(h, s, receiver, cap, startTs, endTs, 0)
    ensures MayClaim(s, clk, CLAIMANT, WALLET)
    ensures Accepts(h, [], s.d.root, ClaimLeaf(h, LEAF))
  {
    NamesDiffer();
    StoredProofAccepted(h, [LEAF], 0);
    assert StoredProof(h, [LEAF], 0) == [];
  }

  // ----- A window too long to compute -----

  const LONG_AGO: i64 := -0x8000_0000_0000_0000

  /**
   The program accepts a vesting start as early as i64 allows. The fully funded, enabled distributor
   then refuses its only leaf on arithmetic as long as the window is open, and pays it once it is over.
   */
  lemma NegativeStartBreaksClaims(h: HashFn, now: i64)
    requires 0 <= now
    ensures Create(h, RECEIVER, 15, LONG_AGO, 1_000_000, 0).Ok?
    ensures var s := Create(h, RECEIVER, 15, LONG_AGO, 1_000_000, 0).value;
      var r := NewClaim(h, s, Clock(now, 1), CLAIMANT, WALLET, 10, 5, []);
      if now < 1_000_000 then r == Err(ArithmeticError) else r.Ok?
  {
    CreateSucceeds(h, RECEIVER, 15, LONG_AGO, 1_000_000, 0);
    var s, clk := Create(h, RECEIVER, 15, LONG_AGO, 1_000_000, 0).value, Clock(now, 1);
    LeafMayClaim(h, s, RECEIVER, 15, LONG_AGO, 1_000_000, clk);
    if now < 1_000_000 {
      UnlockedClaimedExact(10, now, LONG_AGO, 1_000_000);
    } else {
      NewClaimSucceedsIff(h, s, clk, CLAIMANT, WALLET, 10, 5, []);
    }
  }

  // ----- Clawback to the vault itself -----

  /**
   The program accepts the vault as its own clawback receiver. Clawback then succeeds, moves nothing,
   and leaves the tokens where nobody can ever reach them again.
   */
  lemma ClawbackToVaultStrands(h: HashFn, run: Run)
    ensures Create(h, VAULT, 15, 0, 100, 0).Ok?
    ensures var s := Create(h, VAULT, 15, 0, 100, 0).value;
      var r := Clawback(s, Clock(100 + SECONDS_PER_DAY, 1));
      r.Ok? && r.value.d.clawedBack && r.value.Vault() == 15 && After(h, r.value, run).Vault() >= 15
  {
    CreateSucceeds(h, VAULT, 15, 0, 100, 0);
    var s, clk := Create(h, VAULT, 15, 0, 100, 0).value, Clock(100 + SECONDS_PER_DAY, 1);
    ClawbackDrains(s, clk);
    InvStep(h, s, Event(clk, ClawbackIx));
    ClawedBackVaultIsStranded(h, Clawback(s, clk).value, run);
  }

  // ----- A cap below the tree's total -----

  lemma LowCapClaim(h: HashFn, s: State, claim: Event)
    requires Created(h, s, RECEIVER, 10, 0, 100, 0)
    requires claim == Event(Clock(0, 1), NewClaimIx(CLAIMANT, WALLET, 10, 5, []))
    ensures var t := Execute(h, s, claim);
      Inv(t) && Claims(s, t, claim.clk, CLAIMANT, WALLET, 10, 5, 5)
  {
    LeafMayClaim(h, s, RECEIVER, 10, 0, 100, claim.clk);
    assert Released(10, 0, 0, 100) == 5;
    NewClaimSucceedsIff(h, s, claim.clk, CLAIMANT, WALLET, 10, 5, []);
    NewClaimEffect(h, s, claim.clk, CLAIMANT, WALLET, 10, 5, []);
    InvStep(h, s, claim);
  }

  lemma LowCapWithdrawal(h: HashFn, t: State, withdraw: Event)
    requires Inv(t) && withdraw == Event(Clock(100, 1), ClaimLockedIx(CLAIMANT, WALLET))
    requires MayClaim(t, withdraw.clk, CLAIMANT, WALLET)
    requires CLAIMANT in t.statuses
    requires t.statuses[CLAIMANT].lockedAmount == 5 && t.statuses[CLAIMANT].lockedAmountWithdrawn == 0
    requires t.d.totalAmountClaimed == t.d.totalAmountForgone == 5 && t.d.maxTotalClaim == 10
    requires t.Vault() >= 5 && t.d.startTs == 0 && t.d.endTs == 100
    ensures Execute(h, t, withdraw).d == t.d.(totalAmountClaimed := 10)
  {
    WithdrawalOutcome(t, withdraw.clk, CLAIMANT, WALLET, 5);
    ClaimLockedEffect(t, withdraw.clk, CLAIMANT, WALLET);
  }

  /**
   With a cap of 10 for the leaf's 15, a claim at the start (5 paid, 5 forgone) and a withdrawal after
   the end (5) both succeed, and paid plus forgone is then 15.
   */
  lemma CapBelowTreeIsOvershot(h: HashFn)
    ensures Create(h, RECEIVER, 10, 0, 100, 0).Ok?
    ensures var claim := Event(Clock(0, 1), NewClaimIx(CLAIMANT, WALLET, 10, 5, []));
      var withdraw := Event(Clock(100, 1), ClaimLockedIx(CLAIMANT, WALLET));
      var d := After(h, Create(h, RECEIVER, 10, 0, 100, 0).value, [claim, withdraw]).d;
      d.totalAmountClaimed == 10 && d.totalAmountForgone == 5 && d.maxTotalClaim == 10
  {
    var claim := Event(Clock(0, 1), NewClaimIx(CLAIMANT, WALLET, 10, 5, []));
    var withdraw := Event(Clock(100, 1), ClaimLockedIx(CLAIMANT, WALLET));
    CreateSucceeds(h, RECEIVER, 10, 0, 100, 0);
    NamesDiffer();
    var s := Create(h, RECEIVER, 10, 0, 100, 0).value;
    AfterTwo(h, s, claim, withdraw);
    LowCapClaim(h, s, claim);
    LowCapWithdrawal(h, Execute(h, s, claim), withdraw);
  }

  // ----- Funding again from the old file -----

  /** A paused, fully funded distributor is cut from 15 to 9; a second pass with the old file puts the burned 6 back. */
  lemma OldFileRefundsCut(h: HashFn, newRoot: Bytes32)
    ensures Create(h, RECEIVER, 15, 0, 100, U64_MAX).Ok?
    ensures var s := Create(h, RECEIVER, 15, 0, 100, U64_MAX).value;
      var r := SetRoot(s, PROGRAM_ADMIN, newRoot, s.d.root, 0, 9);
      && FundAmount(Read(15, s)) == Some(0)
      && r.Ok? && r.value.supply == 9 && FundAmount(Read(15, r.value)) == Some(6)
  {
    CreateSucceeds(h, RECEIVER, 15, 0, 100, U64_MAX);
    var s := Create(h, RECEIVER, 15, 0, 100, U64_MAX).value;
    SetRootSucceedsIff(s, PROGRAM_ADMIN, newRoot, s.d.root, 0, 9);
    SetRootEffect(s, PROGRAM_ADMIN, newRoot, s.d.root, 0, 9);
  }

  // ----- Two lowest markets with different symbols -----

  /** Two files of one mint with the same index but different symbols: which comes first shows in the output. */
  lemma EqualIndicesShowOrder(parse: Aggregate.KeyParser)
    ensures var m, n := Aggregate.Market(0, [65], [7]), Aggregate.Market(0, [66], [7]);
      var a, b := Aggregate.Input(m, []), Aggregate.Input(n, []);
      && Aggregate.Clean(parse, Aggregate.Rows([a, b])) && Aggregate.Clean(parse, Aggregate.Rows([b, a]))
      && forall out, out' :: Aggregate.IsAggregate(out, [a, b]) && Aggregate.IsAggregate(out', [b, a]) ==> out != out'
  {
    var m, n := Aggregate.Market(0, [65], [7]), Aggregate.Market(0, [66], [7]);
    var a, b := Aggregate.Input(m, []), Aggregate.Input(n, []);
    TwoFiles(a, b);
    TwoFiles(b, a);
    forall out, out' | Aggregate.IsAggregate(out, [a, b]) && Aggregate.IsAggregate(out', [b, a])
      ensures out != out'
    {
      TwoOrdersDiffer(a, b, out, out');
    }
  }

  lemma TwoOrdersDiffer(a: Aggregate.Input, b: Aggregate.Input,
                        out: seq<Aggregate.MergedMint>, out': seq<Aggregate.MergedMint>)
    requires a.entries == b.entries == [] && a.market != b.market
    requires a.market.mint == b.market.mint && a.market.index == b.market.index
    requires Aggregate.IsAggregate(out, [a, b]) && Aggregate.IsAggregate(out', [b, a])
    ensures out != out'
  {
    BothLowest(a, b);
    EitherToFront(a, b);
    Aggregate.DisagreeingTiesShow([a, b], 0, 1, out, out');
  }

  lemma BothLowest(a: Aggregate.Input, b: Aggregate.Input)
    requires a.entries == b.entries == []
    requires a.market.mint == b.market.mint && a.market.index == b.market.index
    ensures var ms := Aggregate.Markets([a, b]); Aggregate.IsLowest(ms, a.market) && Aggregate.IsLowest(ms, b.market)
  {
    TwoFiles(a, b);
  }

  lemma EitherToFront(a: Aggregate.Input, b: Aggregate.Input)
    ensures Aggregate.ToFront([a, b], 0) == [a, b] && Aggregate.ToFront([a, b], 1) == [b, a]
  {
  }

  lemma TwoFiles(a: Aggregate.Input, b: Aggregate.Input)
    requires a.entries == b.entries == []
    ensures Aggregate.Markets([a, b]) == [a.market, b.market] && Aggregate.Rows([a, b]) == []
  {
    assert [a, b][..1] == [a];
    FlatMapOne(a, Aggregate.MarketIn);
    FlatMapOne(a, Aggregate.RowsIn);
  }
}
