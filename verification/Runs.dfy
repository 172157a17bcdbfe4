/** Properties of whole runs: surplus, re-root snapshots, clawback, vesting and token supply. */
module Runs {
  import opened Bytes
  import opened Sums
  import opened Vesting
  import opened Distributor
  import opened Invariants

  function Init(run: Run): Run
    requires run != []
  {
    run[..|run| - 1]
  }

  function Last(run: Run): Event
    requires run != []
  {
    run[|run| - 1]
  }

  /** The last event of a non-empty run succeeded. */
  ghost predicate LastSucceeds(h: HashFn, s: State, run: Run)
    requires run != []
  {
    Apply(h, After(h, s, Init(run)), Last(run)).Ok?
  }

  /** Unfolds the last step of a run into its effect. */
  lemma LastStep(h: HashFn, s: State, run: Run)
    requires run != []
    ensures var t, t' := After(h, s, Init(run)), After(h, s, run);
            if LastSucceeds(h, s, run) then Effect(t, Last(run), t') else t' == t
  {
    StepEffect(h, After(h, s, Init(run)), Last(run));
  }

  lemma {:induction false} RunKeepsDistributor(h: HashFn, s: State, run: Run)
    ensures SameDistributor(s, After(h, s, run))
  {
    if run != [] {
      RunKeepsDistributor(h, s, Init(run));
      LastStep(h, s, run);
      if LastSucceeds(h, s, run) {
        Constants(After(h, s, Init(run)), Last(run), After(h, s, run));
      }
    }
  }

  // ----- Surplus -----

  /** What the vault holds beyond all that can still be claimed from it. */
  function Surplus(s: State): int {
    s.Vault() + s.d.totalAmountClaimed - s.d.maxTotalClaim
  }

  /** Tokens that a successful step brings into the vault from outside. */
  function DepositOf(s: State, ins: Instruction): nat {
    match ins
    case TransferIx(_, _, to, amount) => if to == s.d.tokenVault then amount else 0
    case MintToIx(to, amount) => if to == s.d.tokenVault then amount else 0
    case _ => 0
  }

  ghost function Deposits(h: HashFn, s: State, run: Run): nat {
    if run == [] then 0
    else Deposits(h, s, Init(run)) + if LastSucceeds(h, s, run) then DepositOf(s, Last(run).ins) else 0
  }

  /** Claims, withdrawals and re-roots leave the surplus alone; a deposit raises it by its amount. */
  lemma SurplusStep(s: State, e: Event, s': State)
    requires Sound(s) && Effect(s, e, s')
    ensures s.d.clawedBack ==> s'.d.clawedBack
    ensures !s'.d.clawedBack ==> Surplus(s') == Surplus(s) + DepositOf(s, e.ins)
  {
  }

  /** Until clawback, the surplus is the initial one plus all deposits, whatever claims and re-roots happen. */
  lemma {:induction false} SurplusConserved(h: HashFn, s: State, run: Run)
    requires Inv(s) && !After(h, s, run).d.clawedBack
    ensures Surplus(After(h, s, run)) == Surplus(s) + Deposits(h, s, run)
  {
    if run != [] {
      var t := After(h, s, Init(run));
      LastStep(h, s, run);
      RunKeepsInv(h, s, Init(run));
      RunKeepsDistributor(h, s, Init(run));
      if LastSucceeds(h, s, run) {
        SurplusStep(t, Last(run), After(h, s, run));
      }
      SurplusConserved(h, s, Init(run));
    }
  }

  /** A fully funded vault covers everything still claimable until clawback. */
  lemma FundedStaysFunded(h: HashFn, s: State, run: Run)
    requires Inv(s) && !After(h, s, run).d.clawedBack && Surplus(s) >= 0
    ensures After(h, s, run).Vault() >= After(h, s, run).d.maxTotalClaim - After(h, s, run).d.totalAmountClaimed >= 0
  {
    SurplusConserved(h, s, run);
    RunKeepsInv(h, s, run);
  }

  // ----- Re-root snapshots -----

  lemma {:induction false} StatusesGrow(h: HashFn, s: State, run: Run)
    ensures s.statuses.Keys <= After(h, s, run).statuses.Keys
    ensures forall c :: c in s.statuses ==>
      var x, y := s.statuses[c], After(h, s, run).statuses[c];
      && y == x.(lockedAmountWithdrawn := y.lockedAmountWithdrawn)
      && x.lockedAmountWithdrawn <= y.lockedAmountWithdrawn
  {
    if run != [] {
      StatusesGrow(h, s, Init(run));
      LastStep(h, s, run);
      var t, t' := After(h, s, Init(run)), After(h, s, run);
      if LastSucceeds(h, s, run) && !IsClaim(Last(run).ins) {
        OtherStepsKeepBooks(t, Last(run), t');
      }
    }
  }

  lemma SameSizeSubset<T>(a: set<T>, b: set<T>)
    requires a <= b && |a| == |b|
    ensures a == b
  {
    assert |b - a| == |b| - |a|;
    assert b == a + (b - a);
  }

  /**
   A re-root that succeeds with the claim count read in some earlier state cuts nobody it did not
   know of: exactly the claimants of that earlier state have claimed, with the same entitlements.
   */
  lemma ReRootSeesSnapshot(h: HashFn, s: State, run: Run)
    requires Inv(s) && run != [] && Last(run).ins.SetRootIx?
    requires LastSucceeds(h, s, run) && Last(run).ins.expectedNum == s.d.numNodesClaimed
    ensures After(h, s, run).statuses.Keys == s.statuses.Keys
    ensures forall c :: c in s.statuses ==>
      var x, y := s.statuses[c], After(h, s, run).statuses[c];
      y == x.(lockedAmountWithdrawn := y.lockedAmountWithdrawn)
  {
    StatusesGrow(h, s, run);
    RunKeepsInv(h, s, run);
    LastStep(h, s, run);
    OtherStepsKeepBooks(After(h, s, Init(run)), Last(run), After(h, s, run));
    SameSizeSubset(s.statuses.Keys, After(h, s, run).statuses.Keys);
  }

  /** The instruction asks for an enable slot that the clock can reach. */
  predicate IsResume(ins: Instruction) {
    ins.SetEnableSlotIx? && ins.enableSlot < U64_MAX
  }

  /** A paused stretch of a run: no slot reaches u64::MAX and no attempt to resume succeeds. */
  ghost predicate Paused(h: HashFn, s: State, run: Run) {
    if run == [] then s.d.enableSlot == U64_MAX
    else
      && Paused(h, s, Init(run))
      && Last(run).clk.slot < U64_MAX
      && !(LastSucceeds(h, s, run) && IsResume(Last(run).ins))
  }

  /** While paused no claim status changes. */
  lemma {:induction false} PausedMeansFrozen(h: HashFn, s: State, run: Run)
    requires Paused(h, s, run)
    ensures After(h, s, run).statuses == s.statuses && After(h, s, run).d.enableSlot == U64_MAX
  {
    if run != [] {
      PausedMeansFrozen(h, s, Init(run));
      LastStep(h, s, run);
      if LastSucceeds(h, s, run) {
        PausedStep(After(h, s, Init(run)), Last(run), After(h, s, run));
      }
    }
  }

  lemma {:induction false} PausedPrefix(h: HashFn, s: State, run: Run, i: nat)
    requires Paused(h, s, run) && i < |run|
    ensures Paused(h, s, run[..i]) && run[i].clk.slot < U64_MAX
  {
    if i < |run| - 1 {
      PausedPrefix(h, s, Init(run), i);
      assert Init(run)[..i] == run[..i];
    }
  }

  /** While paused no claim succeeds. */
  lemma PausedRefusesClaims(h: HashFn, s: State, run: Run, i: nat)
    requires Paused(h, s, run) && i < |run| && IsClaim(run[i].ins)
    ensures Apply(h, After(h, s, run[..i]), run[i]).Err?
  {
    var t := After(h, s, run[..i]);
    PausedPrefix(h, s, run, i);
    PausedMeansFrozen(h, s, run[..i]);
    StepEffect(h, t, run[i]);
  }

  lemma PausedStep(s: State, e: Event, s': State)
    requires s.d.enableSlot == U64_MAX && e.clk.slot < U64_MAX && !IsResume(e.ins)
    requires Effect(s, e, s')
    ensures !IsClaim(e.ins) && s'.statuses == s.statuses && s'.d.enableSlot == U64_MAX
  {
  }

  // ----- Clawback -----

  ghost function Clawbacks(h: HashFn, s: State, run: Run): nat {
    if run == [] then 0
    else Clawbacks(h, s, Init(run)) + if LastSucceeds(h, s, run) && Last(run).ins.ClawbackIx? then 1 else 0
  }

  lemma ClawbackStep(s: State, e: Event, s': State)
    requires Sound(s) && Effect(s, e, s')
    ensures s'.d.clawedBack <==> s.d.clawedBack || e.ins.ClawbackIx?
    ensures e.ins.ClawbackIx? ==> !s.d.clawedBack && s.d.endTs + 86_400 <= e.clk.ts
    ensures s.d.clawedBack ==>
      && s'.statuses == s.statuses && s'.d.clawbackStartTs == s.d.clawbackStartTs
      && s'.d.root == s.d.root && s'.d.maxTotalClaim == s.d.maxTotalClaim
      && s'.d.totalAmountClaimed == s.d.totalAmountClaimed && s'.d.totalAmountForgone == s.d.totalAmountForgone
      && s'.d.numNodesClaimed == s.d.numNodesClaimed
  {
  }

  /** Through any date changes, clawback happens at most once. */
  lemma {:induction false} ClawbackOnce(h: HashFn, s: State, run: Run)
    requires Inv(s) && !s.d.clawedBack
    ensures Clawbacks(h, s, run) == if After(h, s, run).d.clawedBack then 1 else 0
  {
    if run != [] {
      ClawbackOnce(h, s, Init(run));
      RunKeepsInv(h, s, Init(run));
      LastStep(h, s, run);
      if LastSucceeds(h, s, run) {
        ClawbackStep(After(h, s, Init(run)), Last(run), After(h, s, run));
      }
    }
  }

  /** Through any date changes, every clawback happens at least a day after full vesting. */
  lemma ClawbackIsLate(h: HashFn, s: State, run: Run, i: nat)
    requires Inv(s) && i < |run| && run[i].ins.ClawbackIx?
    ensures s.d.endTs + 86_400 <= After(h, s, run).d.clawbackStartTs
    ensures Apply(h, After(h, s, run[..i]), run[i]).Ok? ==> s.d.endTs + 86_400 <= run[i].clk.ts
  {
    RunKeepsInv(h, s, run);
    RunKeepsDistributor(h, s, run);
    var t := After(h, s, run[..i]);
    RunKeepsInv(h, s, run[..i]);
    RunKeepsDistributor(h, s, run[..i]);
    StepEffect(h, t, run[i]);
    if Apply(h, t, run[i]).Ok? {
      ClawbackStep(t, run[i], Execute(h, t, run[i]));
    }
  }

  /** After clawback the claims, the counters, the root, the cap and the clawback date stay as they are. */
  lemma {:induction false} FrozenAfterClawback(h: HashFn, s: State, run: Run)
    requires Inv(s) && s.d.clawedBack
    ensures var s' := After(h, s, run);
      && s'.d.clawedBack
      && s'.statuses == s.statuses && s'.d.clawbackStartTs == s.d.clawbackStartTs
      && s'.d.root == s.d.root && s'.d.maxTotalClaim == s.d.maxTotalClaim
      && s'.d.totalAmountClaimed == s.d.totalAmountClaimed && s'.d.totalAmountForgone == s.d.totalAmountForgone
      && s'.d.numNodesClaimed == s.d.numNodesClaimed
  {
    if run != [] {
      FrozenAfterClawback(h, s, Init(run));
      RunKeepsInv(h, s, Init(run));
      LastStep(h, s, run);
      if LastSucceeds(h, s, run) {
        ClawbackStep(After(h, s, Init(run)), Last(run), After(h, s, run));
      }
    }
  }

  /**
   Clawback succeeds exactly when it is due and its receiver exists, and drains the vault exactly
   when the receiver is not the vault itself, which the program never rules out.
   */
  lemma ClawbackDrains(s: State, clk: Clock)
    requires Inv(s)
    ensures Clawback(s, clk).Ok? <==>
      s.d.clawbackReceiver in s.tokens && !s.d.clawedBack && s.d.clawbackStartTs <= clk.ts
    ensures Clawback(s, clk).Ok? ==>
      var s', r := Clawback(s, clk).value, s.d.clawbackReceiver;
      && s'.Vault() == (if r == s.d.tokenVault then s.Vault() else 0)
      && (r != s.d.tokenVault ==> s'.tokens[r].amount == s.tokens[r].amount + s.Vault())
      && s'.supply == s.supply
  {
    if s.d.clawbackReceiver in s.tokens {
      TransferNeverOverflows(s, s.d.tokenVault, s.d.clawbackReceiver, s.Vault());
    }
  }

  lemma StrandedStep(s: State, e: Event, s': State)
    requires Sound(s) && s.d.clawedBack && Effect(s, e, s')
    ensures s'.d.clawedBack && s.Vault() <= s'.Vault()
  {
  }

  /**
   What is in a clawed-back vault, or is sent to it, can never leave it again, unless the distributor
   was created closable.
   */
  lemma {:induction false} ClawedBackVaultIsStranded(h: HashFn, s: State, run: Run)
    requires Inv(s) && s.d.clawedBack && !s.d.closable
    ensures After(h, s, run).d.clawedBack && s.Vault() <= After(h, s, run).Vault()
  {
    if run != [] {
      ClawedBackVaultIsStranded(h, s, Init(run));
      RunKeepsInv(h, s, Init(run));
      LastStep(h, s, run);
      if LastSucceeds(h, s, run) {
        StrandedStep(After(h, s, Init(run)), Last(run), After(h, s, run));
      }
    }
  }

  // ----- Locked vesting does not depend on how often it is withdrawn -----

  /** When a claimant last withdrew locked tokens. */
  ghost function LastWithdrawal(h: HashFn, s: State, run: Run, c: Pubkey): Option<i64> {
    if run == [] then None
    else if LastSucceeds(h, s, run) && Last(run).ins.ClaimLockedIx? && Last(run).ins.claimant == c
      then Some(Last(run).clk.ts)
    else LastWithdrawal(h, s, Init(run), c)
  }

  /** Tokens that left the vault in a claimant's withdrawals. */
  ghost function WithdrawnFromVault(h: HashFn, s: State, run: Run, c: Pubkey): int {
    if run == [] then 0
    else
      WithdrawnFromVault(h, s, Init(run), c)
      + if LastSucceeds(h, s, run) && Last(run).ins.ClaimLockedIx? && Last(run).ins.claimant == c
        then After(h, s, Init(run)).Vault() - After(h, s, run).Vault() else 0
  }

  function VestedAt(locked: nat, at: Option<i64>, d: Distributor): nat {
    if at.None? then 0 else Vested(locked, at.value, d.startTs, d.endTs)
  }

  lemma WithdrawalStep(h: HashFn, s: State, run: Run, c: Pubkey)
    requires Inv(s) && run != [] && LastSucceeds(h, s, run)
    requires Last(run).ins.ClaimLockedIx? && Last(run).ins.claimant == c
    ensures var t, t' := After(h, s, Init(run)), After(h, s, run);
      && c in t.statuses && c in t'.statuses
      && t'.statuses[c].lockedAmount == t.statuses[c].lockedAmount
      && t'.statuses[c].lockedAmountWithdrawn
           == Vested(t.statuses[c].lockedAmount, Last(run).clk.ts, s.d.startTs, s.d.endTs)
      && t.Vault() - t'.Vault() == t'.statuses[c].lockedAmountWithdrawn - t.statuses[c].lockedAmountWithdrawn
  {
    var t := After(h, s, Init(run));
    RunKeepsInv(h, s, Init(run));
    RunKeepsDistributor(h, s, Init(run));
    ClaimLockedEffect(t, Last(run).clk, c, Last(run).ins.to);
  }

  /** Steps other than a claimant's own withdrawals leave that claimant's withdrawn amount alone. */
  lemma OtherStepsKeepWithdrawn(s: State, e: Event, s': State, c: Pubkey)
    requires Effect(s, e, s') && !(e.ins.ClaimLockedIx? && e.ins.claimant == c)
    ensures c in s.statuses ==> c in s'.statuses && s'.statuses[c] == s.statuses[c]
    ensures c !in s.statuses && c in s'.statuses ==> s'.statuses[c].lockedAmountWithdrawn == 0
  {
    if !IsClaim(e.ins) {
      OtherStepsKeepBooks(s, e, s');
    }
  }

  /**
   The amount withdrawn is what had vested at the last withdrawal, no matter how many came before,
   and it is exactly what the withdrawals took out of the vault.
   */
  lemma {:induction false} VestingIsPathIndependent(h: HashFn, s: State, run: Run, c: Pubkey)
    requires Inv(s) && c !in s.statuses
    ensures var s' := After(h, s, run);
      && (c !in s'.statuses ==> LastWithdrawal(h, s, run, c) == None && WithdrawnFromVault(h, s, run, c) == 0)
      && (c in s'.statuses ==>
          && s'.statuses[c].lockedAmountWithdrawn
             == VestedAt(s'.statuses[c].lockedAmount, LastWithdrawal(h, s, run, c), s.d)
             == WithdrawnFromVault(h, s, run, c))
  {
    if run != [] {
      VestingIsPathIndependent(h, s, Init(run), c);
      LastStep(h, s, run);
      var t, t', e := After(h, s, Init(run)), After(h, s, run), Last(run);
      if LastSucceeds(h, s, run) {
        if e.ins.ClaimLockedIx? && e.ins.claimant == c {
          WithdrawalStep(h, s, run, c);
        } else {
          OtherStepsKeepWithdrawn(t, e, t', c);
        }
      }
    }
  }

  lemma {:induction false} LastWithdrawalInPast(h: HashFn, s: State, run: Run, c: Pubkey, now: Clock)
    requires forall i :: 0 <= i < |run| ==> run[i].clk.ts <= now.ts
    ensures LastWithdrawal(h, s, run, c).Some? ==> LastWithdrawal(h, s, run, c).value <= now.ts
  {
    if run != [] {
      LastWithdrawalInPast(h, s, Init(run), c, now);
    }
  }

  /** With a clock that has not gone back, no more was withdrawn than has vested by now. */
  lemma WithdrawnIsVested(h: HashFn, s: State, run: Run, c: Pubkey, now: Clock)
    requires Inv(s) && s.statuses == map[] && c in After(h, s, run).statuses
    requires forall i :: 0 <= i < |run| ==> run[i].clk.ts <= now.ts
    ensures var x := After(h, s, run).statuses[c];
      x.lockedAmountWithdrawn <= Vested(x.lockedAmount, now.ts, s.d.startTs, s.d.endTs) <= x.lockedAmount
  {
    var x := After(h, s, run).statuses[c];
    VestingIsPathIndependent(h, s, run, c);
    LastWithdrawalInPast(h, s, run, c, now);
    var last := LastWithdrawal(h, s, run, c);
    if last.Some? {
      VestedMonotone(x.lockedAmount, last.value, now.ts, s.d.startTs, s.d.endTs);
    }
    VestedWithin(x.lockedAmount, now.ts, s.d.startTs, s.d.endTs);
  }

  /**
   In any reachable state with a clock that never goes back, a withdrawal fails only for the listed
   reasons: the subtraction never underflows and the check against the locked amount never fires.
   */
  lemma WithdrawalSucceedsIff(h: HashFn, s: State, run: Run, clk: Clock, c: Pubkey, to: Pubkey)
    requires Inv(s) && s.statuses == map[]
    requires forall i :: 0 <= i < |run| ==> run[i].clk.ts <= clk.ts
    ensures var t := After(h, s, run);
      ClaimLocked(t, clk, c, to).Ok? <==>
        && MayClaim(t, clk, c, to)
        && c in t.statuses
        && !WindowOverflows(clk.ts, t.d.startTs, t.d.endTs)
        && var vested := Vested(t.statuses[c].lockedAmount, clk.ts, t.d.startTs, t.d.endTs);
           var amount := vested - t.statuses[c].lockedAmountWithdrawn;
           && 0 < amount <= t.Vault()
           && t.d.totalAmountClaimed + amount <= t.d.maxTotalClaim
  {
    var t := After(h, s, run);
    RunKeepsInv(h, s, run);
    RunKeepsDistributor(h, s, run);
    if c in t.statuses && MayClaim(t, clk, c, to) {
      WithdrawnIsVested(h, s, run, c, clk);
      WithdrawalOutcome(t, clk, c, to, Vested(t.statuses[c].lockedAmount, clk.ts, t.d.startTs, t.d.endTs));
    }
  }

  lemma WithdrawalOutcome(t: State, clk: Clock, c: Pubkey, to: Pubkey, vested: u64)
    requires Inv(t) && MayClaim(t, clk, c, to) && c in t.statuses
    requires vested == Vested(t.statuses[c].lockedAmount, clk.ts, t.d.startTs, t.d.endTs)
    requires t.statuses[c].lockedAmountWithdrawn <= vested <= t.statuses[c].lockedAmount
    ensures var amount := vested - t.statuses[c].lockedAmountWithdrawn;
      ClaimLocked(t, clk, c, to).Ok? <==>
        && !WindowOverflows(clk.ts, t.d.startTs, t.d.endTs)
        && 0 < amount <= t.Vault() && t.d.totalAmountClaimed + amount <= t.d.maxTotalClaim
  {
    UnlockedAmountExact(t.statuses[c].lockedAmount, clk.ts, t.d.startTs, t.d.endTs);
    TransferNeverOverflows(t, t.d.tokenVault, to, vested - t.statuses[c].lockedAmountWithdrawn);
  }

  // ----- Supply -----

  /** Tokens burned by re-roots. */
  ghost function BurnedByReRoots(h: HashFn, s: State, run: Run): int {
    if run == [] then 0
    else
      BurnedByReRoots(h, s, Init(run))
      + if LastSucceeds(h, s, run) && Last(run).ins.SetRootIx?
          then After(h, s, Init(run)).supply - After(h, s, run).supply
          else 0
  }

  /** Over any run, re-roots burn exactly what the cap fell by. */
  lemma {:induction false} ReRootsBurnTheCut(h: HashFn, s: State, run: Run)
    ensures BurnedByReRoots(h, s, run) == s.d.maxTotalClaim - After(h, s, run).d.maxTotalClaim
    ensures After(h, s, run).d.maxTotalClaim <= s.d.maxTotalClaim
  {
    if run != [] {
      ReRootsBurnTheCut(h, s, Init(run));
      LastStep(h, s, run);
      var t, t', e := After(h, s, Init(run)), After(h, s, run), Last(run);
      if LastSucceeds(h, s, run) {
        if !IsClaim(e.ins) {
          OtherStepsKeepBooks(t, e, t');
        }
      }
    }
  }

  /**
   Re-roots are for the two DFX mints only: a distributor of any other mint keeps its root and its cap
   over every run, and re-roots never burn any of its tokens.
   */
  lemma {:induction false} OtherMintsAreNeverReRooted(h: HashFn, s: State, run: Run)
    requires s.d.mint != DFX_MAINNET && s.d.mint != DFX_DEVNET
    ensures After(h, s, run).d.root == s.d.root && After(h, s, run).d.maxTotalClaim == s.d.maxTotalClaim
    ensures BurnedByReRoots(h, s, run) == 0
  {
    if run != [] {
      var t, e, t' := After(h, s, Init(run)), Last(run), After(h, s, run);
      OtherMintsAreNeverReRooted(h, s, Init(run));
      RunKeepsDistributor(h, s, Init(run));
      LastStep(h, s, run);
      if LastSucceeds(h, s, run) && !IsClaim(e.ins) {
        OtherStepsKeepBooks(t, e, t');
      }
    }
  }

  /** The burner empties an account of its own and takes exactly its balance off the supply. */
  lemma BurnAllRemovesBalance(s: State, account: Pubkey)
    requires Inv(s) && account in s.tokens && s.tokens[account].owner == s.burner
    ensures BurnAll(s, account).Ok?
    ensures var s' := BurnAll(s, account).value;
      && s'.supply == s.supply - s.tokens[account].amount
      && s'.tokens == s.tokens[account := s.tokens[account].(amount := 0)]
      && s'.d == s.d
  {
    SumMapNonNegative(s.tokens, Amount);
    assert Amount(s.tokens[account]) <= s.supply;
    BurnAllEffect(s, account);
  }

  lemma ClawbackMoves(s: State, clk: Clock)
    requires Inv(s) && Clawback(s, clk).Ok? && s.d.clawbackReceiver != s.d.tokenVault
    ensures var s', r, v := Clawback(s, clk).value, s.d.clawbackReceiver, s.d.tokenVault;
      && r in s.tokens
      && s.tokens[r].amount + s.Vault() <= U64_MAX
      && s'.tokens == s.tokens[v := s.tokens[v].(amount := 0)]
                       [r := s.tokens[r].(amount := s.tokens[r].amount + s.Vault())]
      && s'.supply == s.supply && s'.d == s.d.(clawedBack := true) && s'.burner == s.burner
  {
  }

  /**
   Clawback into a burner account followed by a burn removes exactly the vault's balance and what the
   account held.
   */
  lemma ClawbackThenBurn(h: HashFn, s: State, clk: Clock, clk': Clock)
    requires Inv(s) && Clawback(s, clk).Ok?
    requires s.tokens[s.d.clawbackReceiver].owner == s.burner
    ensures var r := s.d.clawbackReceiver;
      var s' := Execute(h, Execute(h, s, Event(clk, ClawbackIx)), Event(clk', BurnAllIx(r)));
      && s'.supply == s.supply - s.Vault() - s.tokens[r].amount
      && s'.Vault() == 0 && r in s'.tokens && s'.tokens[r].amount == 0
      && forall a :: a in s.tokens && a != r && a != s.d.tokenVault ==> a in s'.tokens && s'.tokens[a] == s.tokens[a]
  {
    var e := Event(clk, ClawbackIx);
    ClawbackMoves(s, clk);
    InvStep(h, s, e);
    BurnAllRemovesBalance(Execute(h, s, e), s.d.clawbackReceiver);
  }
}
