/**
 The errors that the program returns are true: whenever an instruction is refused, the check that its
 error stands for really fails. What else fails at the same time does not matter.
 */
module Refusals {
  import opened Bytes
  import opened MerkleVerify
  import opened Vesting
  import opened Distributor
  import opened Invariants

  // ----- New claims -----

  ghost predicate CheckReason(h: HashFn, s: State, clk: Clock, c: Pubkey, to: Pubkey, u: u64, l: u64,
                              proof: seq<Bytes32>, error: ErrorCode)
  {
    match error
    case AccountInUse => c in s.statuses
    case AccountMissing => to !in s.tokens
    case OwnerMismatch => !s.CanSign(c) || to !in s.tokens || s.tokens[to].owner != c
    case ClaimExpired => s.d.clawedBack
    case ClaimingIsNotStarted => clk.slot < s.d.enableSlot || clk.ts < s.d.startTs
    case MaxNodesExceeded => s.d.numNodesClaimed >= s.d.maxNumNodes
    case InvalidProof => !Accepts(h, proof, s.d.root, ClaimLeaf(h, Entitlement(c, u, l)))
    case ArithmeticError => s.d.numNodesClaimed == U64_MAX
    case _ => false
  }

  ghost predicate PaymentReason(s: State, u: u64, paid: u64, error: ErrorCode) {
    match error
    case InsufficientFunds => s.Vault() < paid
    case ExceededMaxClaim => s.d.totalAmountClaimed + s.d.totalAmountForgone + u > s.d.maxTotalClaim
    case ArithmeticError => s.d.totalAmountClaimed + s.d.totalAmountForgone + u > U64_MAX
    case _ => false
  }

  lemma CheckRefusals(h: HashFn, s: State, clk: Clock, c: Pubkey, to: Pubkey, u: u64, l: u64, proof: seq<Bytes32>)
    requires s.d.tokenVault in s.tokens && CheckNewClaim(h, s, clk, c, to, u, l, proof).Err?
    ensures CheckReason(h, s, clk, c, to, u, l, proof, CheckNewClaim(h, s, clk, c, to, u, l, proof).error)
  {
  }

  lemma PaymentRefusals(s: State, c: Pubkey, to: Pubkey, u: u64, l: u64, num: u64, paid: u64)
    requires Backed(s) && s.d.tokenVault in s.tokens && to in s.tokens && paid <= u
    requires PayNewClaim(s, c, to, u, l, num, paid).Err?
    ensures PaymentReason(s, u, paid, PayNewClaim(s, c, to, u, l, num, paid).error)
  {
    TransferNeverOverflows(s, s.d.tokenVault, to, paid);
  }

  /**
   A refused claim failed one of its checks, its window is too long to compute, or its payment of the
   released amount does not fit the vault or the cap.
   */
  lemma NewClaimRefusals(h: HashFn, s: State, clk: Clock, c: Pubkey, to: Pubkey, u: u64, l: u64, proof: seq<Bytes32>)
    requires Inv(s) && NewClaim(h, s, clk, c, to, u, l, proof).Err?
    ensures var error, paid := NewClaim(h, s, clk, c, to, u, l, proof).error,
              Released(u, clk.ts, s.d.startTs, s.d.endTs);
      || CheckReason(h, s, clk, c, to, u, l, proof, error)
      || (error == ArithmeticError && WindowOverflows(clk.ts, s.d.startTs, s.d.endTs))
      || (paid <= u && PaymentReason(s, u, paid, error))
  {
    var paid := Released(u, clk.ts, s.d.startTs, s.d.endTs);
    if CheckNewClaim(h, s, clk, c, to, u, l, proof).Err? {
      CheckRefusals(h, s, clk, c, to, u, l, proof);
    } else {
      UnlockedClaimedExact(u, clk.ts, s.d.startTs, s.d.endTs);
      ReleasedMonotone(u, clk.ts, clk.ts, s.d.startTs, s.d.endTs);
      if !WindowOverflows(clk.ts, s.d.startTs, s.d.endTs) {
        PaymentRefusals(s, c, to, u, l, s.d.numNodesClaimed + 1, paid);
      }
    }
  }

  // ----- Withdrawals, re-roots and settings -----

  ghost predicate WithdrawalReason(s: State, clk: Clock, c: Pubkey, to: Pubkey, error: ErrorCode) {
    match error
    case AccountMissing => c !in s.statuses || to !in s.tokens
    case OwnerMismatch => !s.CanSign(c) || to !in s.tokens || s.tokens[to].owner != c
    case ClaimExpired => s.d.clawedBack
    case ClaimingIsNotStarted => clk.slot < s.d.enableSlot
    case _ => c in s.statuses && AmountReason(s, clk, s.statuses[c], error)
  }

  ghost predicate AmountReason(s: State, clk: Clock, x: ClaimStatus, error: ErrorCode) {
    var amount := Vested(x.lockedAmount, clk.ts, s.d.startTs, s.d.endTs) - x.lockedAmountWithdrawn;
    match error
    case InsufficientUnlockedTokens => amount == 0
    case InsufficientFunds => s.Vault() < amount
    case ExceededMaxClaim => s.d.totalAmountClaimed + amount > s.d.maxTotalClaim
    case ArithmeticError =>
      || WindowOverflows(clk.ts, s.d.startTs, s.d.endTs)
      || amount < 0
      || s.d.totalAmountClaimed + amount > U64_MAX
    case _ => false
  }

  lemma ClaimLockedRefusals(s: State, clk: Clock, c: Pubkey, to: Pubkey)
    requires Backed(s) && s.d.tokenVault in s.tokens && ClaimLocked(s, clk, c, to).Err?
    requires c in s.statuses ==> StatusOf(s, c, s.statuses[c])
    ensures WithdrawalReason(s, clk, c, to, ClaimLocked(s, clk, c, to).error)
  {
    if c in s.statuses && to in s.tokens {
      var x := s.statuses[c];
      UnlockedAmountExact(x.lockedAmount, clk.ts, s.d.startTs, s.d.endTs);
      VestedWithin(x.lockedAmount, clk.ts, s.d.startTs, s.d.endTs);
      var amount := Vested(x.lockedAmount, clk.ts, s.d.startTs, s.d.endTs) - x.lockedAmountWithdrawn;
      if amount >= 0 {
        TransferNeverOverflows(s, s.d.tokenVault, to, amount);
      }
    }
  }

  ghost predicate ReRootReason(s: State, signer: Pubkey, oldRoot: Bytes32, num: u64, newMax: u64, error: ErrorCode) {
    match error
    case Unauthorized => signer != s.d.admin
    case MintNotReRootable => s.d.mint != DFX_MAINNET && s.d.mint != DFX_DEVNET
    case ClawbackAlreadyClaimed => s.d.clawedBack
    case DistributorNotPaused => s.d.enableSlot < U64_MAX
    case RootMismatch => s.d.root != oldRoot
    case ClaimCountMismatch => |s.statuses| != num
    case MaxTotalClaimIncrease => s.d.maxTotalClaim < newMax
    case ExceededMaxClaim => newMax < s.d.totalAmountClaimed + s.d.totalAmountForgone
    case InsufficientUnlockedTokens => s.Vault() < s.d.maxTotalClaim - s.d.totalAmountClaimed
    case ArithmeticError => s.d.totalAmountClaimed + s.d.totalAmountForgone > U64_MAX
    case _ => false
  }

  lemma SetRootRefusals(s: State, signer: Pubkey, newRoot: Bytes32, oldRoot: Bytes32, num: u64, newMax: u64)
    requires Inv(s) && SetRoot(s, signer, newRoot, oldRoot, num, newMax).Err?
    ensures ReRootReason(s, signer, oldRoot, num, newMax, SetRoot(s, signer, newRoot, oldRoot, num, newMax).error)
  {
    SetRootSucceedsIff(s, signer, newRoot, oldRoot, num, newMax);
  }

  /** Why clawback and the settings are refused. */
  ghost predicate SettingReason(s: State, e: Event, error: ErrorCode) {
    match e.ins
    case ClawbackIx =>
      (match error
       case AccountMissing => s.d.clawbackReceiver !in s.tokens
       case ClawbackAlreadyClaimed => s.d.clawedBack
       case ClawbackBeforeStart => e.clk.ts < s.d.clawbackStartTs
       case _ => false)
    case SetClawbackStartTsIx(signer, ts) =>
      (match error
       case Unauthorized => signer != s.d.admin
       case ClawbackAlreadyClaimed => s.d.clawedBack
       case TimestampsNotInFuture => ts <= e.clk.ts
       case InsufficientClawbackDelay => ts < s.d.endTs + 86_400
       case _ => false)
    case SetClawbackReceiverIx(signer, account) =>
      (match error
       case Unauthorized => signer != s.d.admin
       case AccountMissing => account !in s.tokens
       case SameClawbackReceiver => account == s.d.clawbackReceiver
       case _ => false)
    case SetAdminIx(signer, newAdmin) =>
      (match error
       case Unauthorized => signer != s.d.admin
       case SameAdmin => newAdmin == s.d.admin
       case _ => false)
    case SetEnableSlotIx(signer, _) => error == Unauthorized && signer != s.d.admin
    case _ => true
  }

  lemma SettingRefusals(h: HashFn, s: State, e: Event)
    requires Inv(s) && Apply(h, s, e).Err?
    ensures SettingReason(s, e, Apply(h, s, e).error)
  {
    if e.ins.ClawbackIx? && s.d.clawbackReceiver in s.tokens {
      TransferNeverOverflows(s, s.d.tokenVault, s.d.clawbackReceiver, s.Vault());
    }
  }

  ghost predicate CreationReason(tokens: Tokens, clk: Clock, key: Pubkey, vault: Pubkey, receiver: Pubkey,
                                 admin: Pubkey, startTs: i64, endTs: i64, clawbackStartTs: i64, error: ErrorCode)
  {
    match error
    case AccountMissing => receiver !in tokens || vault !in tokens || tokens[vault].owner != key
    case Unauthorized => admin != PROGRAM_ADMIN
    case StartTimestampAfterEnd => endTs <= startTs
    case TimestampsNotInFuture => endTs <= clk.ts || clawbackStartTs <= clk.ts
    case ClawbackDuringVesting => clawbackStartTs <= endTs
    case InsufficientClawbackDelay => clawbackStartTs < endTs + 86_400
    case ArithmeticError => endTs + 86_400 > I64_MAX
    case _ => false
  }

  lemma NewDistributorRefusals(
    key: Pubkey, burner: Pubkey, tokens: Tokens, supply: u64, clk: Clock,
    version: u64, mint: Pubkey, vault: Pubkey, receiver: Pubkey, admin: Pubkey, root: Bytes32, max: u64, nodes: u64,
    startTs: i64, endTs: i64, clawbackStartTs: i64, enableSlot: u64, closable: bool)
    requires NewDistributor(key, burner, tokens, supply, clk, version, mint, vault, receiver, admin, root, max, nodes,
                            startTs, endTs, clawbackStartTs, enableSlot, closable).Err?
    ensures CreationReason(
              tokens, clk, key, vault, receiver, admin, startTs, endTs, clawbackStartTs,
              NewDistributor(key, burner, tokens, supply, clk, version, mint, vault, receiver, admin, root, max, nodes,
                             startTs, endTs, clawbackStartTs, enableSlot, closable).error)
  {
  }
}
