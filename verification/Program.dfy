/**
 The distributor program as it runs: instruction handlers that update accounts step by step and may
 stop half way, and the runtime that keeps their writes only when they succeed.
 */
module Program {
  import opened Bytes
  import opened Vesting
  import opened Distributor
  import opened Invariants
  import opened Runs

  class Ledger {
    const h: HashFn
    const key: Pubkey
    const burner: Pubkey
    var d: Distributor
    var statuses: map<Pubkey, ClaimStatus>
    var tokens: Tokens
    var supply: u64

    ghost function View(): State
      reads this
    {
      State(key, burner, d, statuses, tokens, supply)
    }

    constructor (h: HashFn, s: State)
      ensures View() == s && this.h == h
    {
      this.h, key, burner := h, s.key, s.burner;
      d, statuses, tokens, supply := s.d, s.statuses, s.tokens, s.supply;
    }

    /** The handler agrees with the instruction's function: same error, or same new state. */
    ghost predicate Implements(r: Result<(), ErrorCode>, spec: Result<State, ErrorCode>)
      reads this
    {
      if spec.Ok? then r.Ok? && View() == spec.value else r == Err(spec.error)
    }

    method MoveFromVault(to: Pubkey, amount: u64) returns (r: Result<(), ErrorCode>)
      modifies this`tokens
      ensures var spec := Transfer(old(tokens), d.tokenVault, to, amount);
              if spec.Ok? then r.Ok? && tokens == spec.value else r == Err(spec.error)
    {
      var from := d.tokenVault;
      :- Require(from in tokens && to in tokens, AccountMissing);
      :- Require(tokens[from].amount >= amount, InsufficientFunds);
      if from != to {
        var balance := tokens[to].amount;
        :- Require(balance + amount <= U64_MAX, ArithmeticError);
        tokens := tokens[from := tokens[from].(amount := tokens[from].amount - amount)];
        tokens := tokens[to := tokens[to].(amount := tokens[to].amount + amount)];
      }
      r := Ok(());
    }

    method HandleNewClaim(clk: Clock, claimant: Pubkey, to: Pubkey, unlocked: u64, locked: u64, proof: seq<Bytes32>)
      returns (r: Result<(), ErrorCode>)
      modifies this
      ensures Implements(r, NewClaim(h, old(View()), clk, claimant, to, unlocked, locked, proof))
    {
      var currTs, currSlot := clk.ts, clk.slot;
      :- Require(claimant !in statuses, AccountInUse);
      :- Require(d.tokenVault in tokens && to in tokens, AccountMissing);
      :- Require(claimant != key && claimant != burner && tokens[to].owner == claimant, OwnerMismatch);

      :- Require(!d.clawedBack, ClaimExpired);
      :- Require(d.enableSlot <= currSlot, ClaimingIsNotStarted);
      :- Require(d.startTs <= currTs, ClaimingIsNotStarted);

      var num :- CheckedAddU64(d.numNodesClaimed, 1);
      d := d.(numNodesClaimed := num);
      :- Require(d.numNodesClaimed <= d.maxNumNodes, MaxNodesExceeded);

      var node := MerkleVerify.ClaimLeaf(h, MerkleVerify.Entitlement(claimant, unlocked, locked));
      var accepted := MerkleVerify.Verify(h, proof, d.root, node);
      :- Require(accepted, InvalidProof);

      var status := ClaimStatus(claimant, locked, 0, unlocked, 0, d.closable, key);
      var paid :- UnlockedClaimed(unlocked, currTs, d.startTs, d.endTs);
      status := status.(unlockedAmountClaimed := paid);
      statuses := statuses[claimant := status];
      var forgone :- CheckedSubU64(status.unlockedAmount, status.unlockedAmountClaimed);

      var moved := MoveFromVault(to, paid);
      var _ :- moved;

      var totalClaimed :- CheckedAddU64(d.totalAmountClaimed, paid);
      d := d.(totalAmountClaimed := totalClaimed);
      var totalForgone :- CheckedAddU64(d.totalAmountForgone, forgone);
      d := d.(totalAmountForgone := totalForgone);
      var settled :- CheckedAddU64(d.totalAmountClaimed, d.totalAmountForgone);
      :- Require(settled <= d.maxTotalClaim, ExceededMaxClaim);
      r := Ok(());
    }

    method HandleClaimLocked(clk: Clock, claimant: Pubkey, to: Pubkey) returns (r: Result<(), ErrorCode>)
      modifies this
      ensures Implements(r, ClaimLocked(old(View()), clk, claimant, to))
    {
      var currTs, currSlot := clk.ts, clk.slot;
      :- Require(claimant in statuses, AccountMissing);
      :- Require(d.tokenVault in tokens && to in tokens, AccountMissing);
      :- Require(claimant != key && claimant != burner && tokens[to].owner == claimant, OwnerMismatch);

      :- Require(!d.clawedBack, ClaimExpired);
      :- Require(d.enableSlot <= currSlot, ClaimingIsNotStarted);

      var status := statuses[claimant];
      var amount :- AmountWithdrawable(status.lockedAmount, status.lockedAmountWithdrawn, currTs, d.startTs, d.endTs);
      :- Require(amount > 0, InsufficientUnlockedTokens);

      var moved := MoveFromVault(to, amount);
      var _ :- moved;

      var withdrawn :- CheckedAddU64(status.lockedAmountWithdrawn, amount);
      status := status.(lockedAmountWithdrawn := withdrawn);
      statuses := statuses[claimant := status];
      :- Require(status.lockedAmountWithdrawn <= status.lockedAmount, ExceededMaxClaim);

      var totalClaimed :- CheckedAddU64(d.totalAmountClaimed, amount);
      d := d.(totalAmountClaimed := totalClaimed);
      :- Require(d.totalAmountClaimed <= d.maxTotalClaim, ExceededMaxClaim);
      r := Ok(());
    }

    method HandleSetRoot(signer: Pubkey, newRoot: Bytes32, expectedOldRoot: Bytes32, expectedNum: u64, newMax: u64)
      returns (r: Result<(), ErrorCode>)
      modifies this
      ensures Implements(r, SetRoot(old(View()), signer, newRoot, expectedOldRoot, expectedNum, newMax))
    {
      var admin := d.admin;
      :- Require(signer == admin, Unauthorized);
      :- Require(d.tokenVault in tokens, AccountMissing);
      var burnAmount :- ValidateSetRoot(d, tokens[d.tokenVault].amount, expectedOldRoot, expectedNum, newMax);
      if burnAmount > 0 {
        var burnt :- Burn(tokens, supply, d.tokenVault, burnAmount);
        tokens, supply := burnt.0, burnt.1;
      }
      d := d.(root := newRoot);
      d := d.(maxTotalClaim := newMax);
      r := Ok(());
    }

    method HandleSetEnableSlot(signer: Pubkey, enableSlot: u64) returns (r: Result<(), ErrorCode>)
      modifies this
      ensures Implements(r, SetEnableSlot(old(View()), signer, enableSlot))
    {
      var admin := d.admin;
      :- Require(signer == admin, Unauthorized);
      d := d.(enableSlot := enableSlot);
      r := Ok(());
    }

    method HandleSetClawbackStartTs(clk: Clock, signer: Pubkey, clawbackStartTs: i64) returns (r: Result<(), ErrorCode>)
      modifies this
      ensures Implements(r, SetClawbackStartTs(old(View()), clk, signer, clawbackStartTs))
    {
      var admin := d.admin;
      :- Require(signer == admin, Unauthorized);
      var _ :- ValidateClawbackStartTs(d, clawbackStartTs, clk.ts);
      d := d.(clawbackStartTs := clawbackStartTs);
      r := Ok(());
    }

    method HandleClawback(clk: Clock) returns (r: Result<(), ErrorCode>)
      modifies this
      ensures Implements(r, Clawback(old(View()), clk))
    {
      var vault := d.tokenVault;
      :- Require(vault in tokens && d.clawbackReceiver in tokens, AccountMissing);
      :- Require(!d.clawedBack, ClawbackAlreadyClaimed);
      if clk.ts < d.clawbackStartTs {
        return Err(ClawbackBeforeStart);
      }
      var moved := MoveFromVault(d.clawbackReceiver, tokens[d.tokenVault].amount);
      var _ :- moved;
      d := d.(clawedBack := true);
      r := Ok(());
    }

    method HandleSetClawbackReceiver(signer: Pubkey, account: Pubkey) returns (r: Result<(), ErrorCode>)
      modifies this
      ensures Implements(r, SetClawbackReceiver(old(View()), signer, account))
    {
      var admin := d.admin;
      :- Require(signer == admin, Unauthorized);
      :- Require(account in tokens, AccountMissing);
      :- Require(d.clawbackReceiver != account, SameClawbackReceiver);
      d := d.(clawbackReceiver := account);
      r := Ok(());
    }

    method HandleSetAdmin(signer: Pubkey, newAdmin: Pubkey) returns (r: Result<(), ErrorCode>)
      modifies this
      ensures Implements(r, SetAdmin(old(View()), signer, newAdmin))
    {
      var admin := d.admin;
      :- Require(signer == admin, Unauthorized);
      :- Require(signer != newAdmin, SameAdmin);
      d := d.(admin := newAdmin);
      r := Ok(());
    }

    /** Overwrite every account, as the runtime does with the outcome of an instruction. */
    method Store(s: State)
      requires s.key == key && s.burner == burner
      modifies this
      ensures View() == s
    {
      d, statuses, tokens, supply := s.d, s.statuses, s.tokens, s.supply;
    }

    /** The token programs' own steps, which run outside the distributor. */
    method HandleTokens(e: Event) returns (r: Result<(), ErrorCode>)
      modifies this
      ensures Implements(r, Apply(h, old(View()), e))
    {
      var next :- Apply(h, State(key, burner, d, statuses, tokens, supply), e);
      Store(next);
      r := Ok(());
    }

    /** One transaction: whatever the handler wrote before failing is discarded. */
    method Transact(e: Event) returns (r: Result<(), ErrorCode>)
      modifies this
      ensures View() == Execute(h, old(View()), e)
      ensures r.Ok? <==> Apply(h, old(View()), e).Ok?
      ensures r.Err? ==> r.error == Apply(h, old(View()), e).error
    {
      var before := State(key, burner, d, statuses, tokens, supply);
      match e.ins {
        case NewClaimIx(claimant, to, unlocked, locked, proof) =>
          r := HandleNewClaim(e.clk, claimant, to, unlocked, locked, proof);
        case ClaimLockedIx(claimant, to) =>
          r := HandleClaimLocked(e.clk, claimant, to);
        case SetRootIx(signer, root, oldRoot, num, max) =>
          r := HandleSetRoot(signer, root, oldRoot, num, max);
        case SetEnableSlotIx(signer, slot) =>
          r := HandleSetEnableSlot(signer, slot);
        case SetClawbackStartTsIx(signer, ts) =>
          r := HandleSetClawbackStartTs(e.clk, signer, ts);
        case ClawbackIx =>
          r := HandleClawback(e.clk);
        case SetClawbackReceiverIx(signer, account) =>
          r := HandleSetClawbackReceiver(signer, account);
        case SetAdminIx(signer, newAdmin) =>
          r := HandleSetAdmin(signer, newAdmin);
        case CloseClaimStatusIx(_) =>
          r := Err(Panic);
        case _ =>
          r := HandleTokens(e);
      }
      if r.Err? {
        Store(before);
      }
    }

    /**
     A whole run of transactions, failed ones included. The ledger ends in the state that the run
     theorems speak of: it keeps the books, and until clawback its surplus changes by deposits only.
     */
    method TransactAll(run: Run)
      modifies this
      ensures View() == After(h, old(View()), run)
      ensures old(Inv(View())) ==> Inv(View())
      ensures old(Inv(View())) && !d.clawedBack ==>
        Surplus(View()) == old(Surplus(View())) + Deposits(h, old(View()), run)
    {
      for i := 0 to |run|
        invariant View() == After(h, old(View()), run[..i])
      {
        assert run[..i + 1][..i] == run[..i];
        var _ := Transact(run[i]);
      }
      assert run[..|run|] == run;
      if old(Inv(View())) {
        RunKeepsInv(h, old(View()), run);
        if !d.clawedBack {
          SurplusConserved(h, old(View()), run);
        }
      }
    }
  }
}
