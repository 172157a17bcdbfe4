/**
 The distributor program's instructions as functions on one distributor's accounts
 (programs/merkle-distributor/src/instructions/), together with the token-program steps that touch
 the same mint. An instruction either yields the next state or an error.
 */
module Distributor {
  import opened Bytes
  import opened MerkleVerify
  import opened Vesting

  const SECONDS_PER_DAY: i64 := 86_400

  datatype Distributor = Distributor(
    version: u64,
    root: Bytes32,
    mint: Pubkey,
    tokenVault: Pubkey,
    maxTotalClaim: u64,
    maxNumNodes: u64,
    totalAmountClaimed: u64,
    totalAmountForgone: u64,
    numNodesClaimed: u64,
    startTs: i64,
    endTs: i64,
    clawbackStartTs: i64,
    clawbackReceiver: Pubkey,
    admin: Pubkey,
    clawedBack: bool,
    enableSlot: u64,
    closable: bool)

  datatype ClaimStatus = ClaimStatus(
    claimant: Pubkey,
    lockedAmount: u64,
    lockedAmountWithdrawn: u64,
    unlockedAmount: u64,
    unlockedAmountClaimed: u64,
    closable: bool,
    distributor: Pubkey)

  datatype TokenAccount = TokenAccount(owner: Pubkey, amount: u64)

  type Tokens = map<Pubkey, TokenAccount>

  /** One distributor, its claim statuses, and every token account of its mint. */
  datatype State = State(
    key: Pubkey,
    burner: Pubkey,
    d: Distributor,
    statuses: map<Pubkey, ClaimStatus>,
    tokens: Tokens,
    supply: u64)
  {
    function Vault(): u64 {
      if d.tokenVault in tokens then tokens[d.tokenVault].amount else 0
    }

    /** Program-derived addresses never sign a transaction. */
    predicate CanSign(who: Pubkey) {
      who != key && who != burner
    }
  }

  datatype Clock = Clock(ts: i64, slot: u64)

  // ----- The token program -----

  function Transfer(tokens: Tokens, from: Pubkey, to: Pubkey, amount: u64): Result<Tokens, ErrorCode> {
    if from !in tokens || to !in tokens then Err(AccountMissing)
    else if tokens[from].amount < amount then Err(InsufficientFunds)
    else if from == to then Ok(tokens)
    else if tokens[to].amount + amount > U64_MAX then Err(ArithmeticError)
    else Ok(tokens[from := tokens[from].(amount := tokens[from].amount - amount)]
                  [to := tokens[to].(amount := tokens[to].amount + amount)])
  }

  function Burn(tokens: Tokens, supply: u64, from: Pubkey, amount: u64): Result<(Tokens, u64), ErrorCode> {
    if from !in tokens then Err(AccountMissing)
    else if tokens[from].amount < amount then Err(InsufficientFunds)
    else if supply < amount then Err(ArithmeticError)
    else Ok((tokens[from := tokens[from].(amount := tokens[from].amount - amount)], supply - amount))
  }

  function MintTo(s: State, to: Pubkey, amount: u64): Result<State, ErrorCode> {
    if to !in s.tokens then Err(AccountMissing)
    else if s.supply + amount > U64_MAX || s.tokens[to].amount + amount > U64_MAX then Err(ArithmeticError)
    else Ok(s.(tokens := s.tokens[to := s.tokens[to].(amount := s.tokens[to].amount + amount)],
               supply := s.supply + amount))
  }

  function OpenAccount(s: State, account: Pubkey, owner: Pubkey): Result<State, ErrorCode> {
    if account in s.tokens then Err(AccountInUse)
    else Ok(s.(tokens := s.tokens[account := TokenAccount(owner, 0)]))
  }

  /** A holder moves their own tokens; a deposit is a move into the vault. */
  function TransferOwn(s: State, signer: Pubkey, from: Pubkey, to: Pubkey, amount: u64): Result<State, ErrorCode> {
    var held := s.tokens;
    :- Require(from in held, AccountMissing);
    :- Require(s.CanSign(signer) && s.tokens[from].owner == signer, Unauthorized);
    var tokens :- Transfer(s.tokens, from, to, amount);
    Ok(s.(tokens := tokens))
  }

  /** A holder burns their own tokens. */
  function BurnOwn(s: State, signer: Pubkey, from: Pubkey, amount: u64): Result<State, ErrorCode> {
    var held := s.tokens;
    :- Require(from in held, AccountMissing);
    :- Require(s.CanSign(signer) && s.tokens[from].owner == signer, Unauthorized);
    var burnt :- Burn(s.tokens, s.supply, from, amount);
    Ok(s.(tokens := burnt.0, supply := burnt.1))
  }

  /** The token burner: anyone may burn all that an account owned by the burner address holds. */
  function BurnAll(s: State, account: Pubkey): Result<State, ErrorCode> {
    var held := s.tokens;
    :- Require(account in held && held[account].owner == s.burner, AccountMissing);
    if s.tokens[account].amount == 0 then Ok(s)
    else
      var burnt :- Burn(s.tokens, s.supply, account, s.tokens[account].amount);
      Ok(s.(tokens := burnt.0, supply := burnt.1))
  }

  // ----- Creating a distributor -----

  /** The one wallet that may create distributors. */
  const PROGRAM_ADMIN: Pubkey :=
    [12, 66, 159, 206, 114, 113, 161, 90, 86, 120, 20, 54, 181, 229, 138, 242,
     181, 211, 213, 105, 125, 197, 87, 17, 216, 80, 248, 137, 69, 175, 202, 18]

  function NewDistributor(
    key: Pubkey, burner: Pubkey, tokens: Tokens, supply: u64, clk: Clock,
    version: u64, mint: Pubkey, vault: Pubkey, receiver: Pubkey, admin: Pubkey,
    root: Bytes32, maxTotalClaim: u64, maxNumNodes: u64,
    startTs: i64, endTs: i64, clawbackStartTs: i64, enableSlot: u64, closable: bool
  ): Result<State, ErrorCode>
  {
    var now := clk.ts;
    :- Require(receiver in tokens, AccountMissing);
    :- Require(admin == PROGRAM_ADMIN, Unauthorized);
    :- Require(vault in tokens && tokens[vault].owner == key, AccountMissing);
    :- Require(startTs < endTs, StartTimestampAfterEnd);
    :- Require(endTs > now && clawbackStartTs > now, TimestampsNotInFuture);
    :- Require(clawbackStartTs > endTs, ClawbackDuringVesting);
    var earliest :- CheckedAddI64(endTs, SECONDS_PER_DAY);
    :- Require(clawbackStartTs >= earliest, InsufficientClawbackDelay);
    Ok(State(key, burner,
             Distributor(version, root, mint, vault, maxTotalClaim, maxNumNodes, 0, 0, 0,
                         startTs, endTs, clawbackStartTs, receiver, admin, false, enableSlot, closable),
             map[], tokens, supply))
  }

  // ----- Claiming -----

  function NewClaim(h: HashFn, s: State, clk: Clock, claimant: Pubkey, to: Pubkey,
                    unlocked: u64, locked: u64, proof: seq<Bytes32>): Result<State, ErrorCode>
  {
    var num :- CheckNewClaim(h, s, clk, claimant, to, unlocked, locked, proof);
    var paid :- UnlockedClaimed(unlocked, clk.ts, s.d.startTs, s.d.endTs);
    PayNewClaim(s, claimant, to, unlocked, locked, num, paid)
  }

  /** The checks of a new claim, and the node count it leads to. */
  function CheckNewClaim(h: HashFn, s: State, clk: Clock, claimant: Pubkey, to: Pubkey,
                         unlocked: u64, locked: u64, proof: seq<Bytes32>): Result<u64, ErrorCode>
  {
    var now := clk.ts;
    :- Require(claimant !in s.statuses, AccountInUse);
    :- Require(s.d.tokenVault in s.tokens && to in s.tokens, AccountMissing);
    :- Require(s.CanSign(claimant) && s.tokens[to].owner == claimant, OwnerMismatch);
    :- Require(!s.d.clawedBack, ClaimExpired);
    :- Require(s.d.enableSlot <= clk.slot, ClaimingIsNotStarted);
    :- Require(s.d.startTs <= now, ClaimingIsNotStarted);
    var num :- CheckedAddU64(s.d.numNodesClaimed, 1);
    :- Require(num <= s.d.maxNumNodes, MaxNodesExceeded);
    :- Require(Accepts(h, proof, s.d.root, ClaimLeaf(h, Entitlement(claimant, unlocked, locked))), InvalidProof);
    Ok(num)
  }

  /** The payment of a new claim: transfer, counters, cap and claim status. */
  function PayNewClaim(s: State, claimant: Pubkey, to: Pubkey, unlocked: u64, locked: u64,
                       num: u64, paid: u64): Result<State, ErrorCode>
  {
    var forgone :- CheckedSubU64(unlocked, paid);
    var tokens :- Transfer(s.tokens, s.d.tokenVault, to, paid);
    var totalClaimed :- CheckedAddU64(s.d.totalAmountClaimed, paid);
    var totalForgone :- CheckedAddU64(s.d.totalAmountForgone, forgone);
    var settled :- CheckedAddU64(totalClaimed, totalForgone);
    :- Require(settled <= s.d.maxTotalClaim, ExceededMaxClaim);
    var status := ClaimStatus(claimant, locked, 0, unlocked, paid, s.d.closable, s.key);
    Ok(s.(d := s.d.(numNodesClaimed := num, totalAmountClaimed := totalClaimed, totalAmountForgone := totalForgone),
          statuses := s.statuses[claimant := status],
          tokens := tokens))
  }

  function ClaimLocked(s: State, clk: Clock, claimant: Pubkey, to: Pubkey): Result<State, ErrorCode> {
    var now := clk.ts;
    :- Require(claimant in s.statuses, AccountMissing);
    :- Require(s.d.tokenVault in s.tokens && to in s.tokens, AccountMissing);
    :- Require(s.CanSign(claimant) && s.tokens[to].owner == claimant, OwnerMismatch);
    :- Require(!s.d.clawedBack, ClaimExpired);
    :- Require(s.d.enableSlot <= clk.slot, ClaimingIsNotStarted);
    var status := s.statuses[claimant];
    var amount :- AmountWithdrawable(status.lockedAmount, status.lockedAmountWithdrawn, now, s.d.startTs, s.d.endTs);
    :- Require(amount > 0, InsufficientUnlockedTokens);
    var tokens :- Transfer(s.tokens, s.d.tokenVault, to, amount);
    var withdrawn :- CheckedAddU64(status.lockedAmountWithdrawn, amount);
    :- Require(withdrawn <= status.lockedAmount, ExceededMaxClaim);
    var totalClaimed :- CheckedAddU64(s.d.totalAmountClaimed, amount);
    :- Require(totalClaimed <= s.d.maxTotalClaim, ExceededMaxClaim);
    Ok(s.(d := s.d.(totalAmountClaimed := totalClaimed),
          statuses := s.statuses[claimant := status.(lockedAmountWithdrawn := withdrawn)],
          tokens := tokens))
  }

  // ----- Administration -----

  function SetEnableSlot(s: State, signer: Pubkey, enableSlot: u64): Result<State, ErrorCode> {
    var admin := s.d.admin;
    :- Require(signer == admin, Unauthorized);
    Ok(s.(d := s.d.(enableSlot := enableSlot)))
  }

  const DFX_MAINNET: Pubkey :=
    [9, 100, 244, 195, 99, 56, 78, 193, 244, 62, 49, 151, 49, 51, 36, 236,
     79, 73, 123, 25, 255, 142, 175, 1, 85, 120, 143, 92, 121, 142, 149, 56]

  const DFX_DEVNET: Pubkey :=
    [9, 100, 244, 73, 79, 47, 215, 81, 165, 247, 239, 87, 110, 253, 242, 12,
     22, 50, 252, 73, 145, 18, 101, 83, 72, 45, 127, 170, 105, 152, 94, 180]

  /** The two mints whose distributors may be re-rooted. */
  predicate IsDfxMint(mint: Pubkey) {
    mint == DFX_MAINNET || mint == DFX_DEVNET
  }

  /** The amount to burn. */
  function ValidateSetRoot(d: Distributor, vaultAmount: u64, expectedOldRoot: Bytes32,
                           expectedNumNodesClaimed: u64, newMaxTotalClaim: u64): Result<u64, ErrorCode>
  {
    var max := d.maxTotalClaim;
    :- Require(IsDfxMint(d.mint), MintNotReRootable);
    :- Require(!d.clawedBack, ClawbackAlreadyClaimed);
    :- Require(d.enableSlot == U64_MAX, DistributorNotPaused);
    :- Require(d.root == expectedOldRoot, RootMismatch);
    :- Require(d.numNodesClaimed == expectedNumNodesClaimed, ClaimCountMismatch);
    :- Require(newMaxTotalClaim <= max, MaxTotalClaimIncrease);
    var settled :- CheckedAddU64(d.totalAmountClaimed, d.totalAmountForgone);
    :- Require(newMaxTotalClaim >= settled, ExceededMaxClaim);
    // Both subtractions are in range here: new max >= claimed and new max <= max.
    :- Require(vaultAmount >= max - d.totalAmountClaimed, InsufficientUnlockedTokens);
    Ok(max - newMaxTotalClaim)
  }

  function SetRoot(s: State, signer: Pubkey, newRoot: Bytes32, expectedOldRoot: Bytes32,
                   expectedNumNodesClaimed: u64, newMaxTotalClaim: u64): Result<State, ErrorCode>
  {
    var admin := s.d.admin;
    :- Require(signer == admin, Unauthorized);
    :- Require(s.d.tokenVault in s.tokens, AccountMissing);
    var burnAmount :- ValidateSetRoot(s.d, s.Vault(), expectedOldRoot, expectedNumNodesClaimed, newMaxTotalClaim);
    var burnt :- if burnAmount > 0 then Burn(s.tokens, s.supply, s.d.tokenVault, burnAmount)
                    else Ok((s.tokens, s.supply));
    Ok(s.(d := s.d.(root := newRoot, maxTotalClaim := newMaxTotalClaim), tokens := burnt.0, supply := burnt.1))
  }

  function ValidateClawbackStartTs(d: Distributor, clawbackStartTs: i64, now: i64): Result<(), ErrorCode> {
    var clawedBack := d.clawedBack;
    :- Require(!clawedBack, ClawbackAlreadyClaimed);
    :- Require(clawbackStartTs > now, TimestampsNotInFuture);
    var earliest :- CheckedAddI64(d.endTs, SECONDS_PER_DAY);
    :- Require(clawbackStartTs >= earliest, InsufficientClawbackDelay);
    Ok(())
  }

  function SetClawbackStartTs(s: State, clk: Clock, signer: Pubkey, clawbackStartTs: i64): Result<State, ErrorCode> {
    var admin := s.d.admin;
    :- Require(signer == admin, Unauthorized);
    var _ :- ValidateClawbackStartTs(s.d, clawbackStartTs, clk.ts);
    Ok(s.(d := s.d.(clawbackStartTs := clawbackStartTs)))
  }

  function SetClawbackReceiver(s: State, signer: Pubkey, account: Pubkey): Result<State, ErrorCode> {
    var admin := s.d.admin;
    :- Require(signer == admin, Unauthorized);
    :- Require(account in s.tokens, AccountMissing);
    :- Require(s.d.clawbackReceiver != account, SameClawbackReceiver);
    Ok(s.(d := s.d.(clawbackReceiver := account)))
  }

  function SetAdmin(s: State, signer: Pubkey, newAdmin: Pubkey): Result<State, ErrorCode> {
    var admin := s.d.admin;
    :- Require(signer == admin, Unauthorized);
    :- Require(signer != newAdmin, SameAdmin);
    Ok(s.(d := s.d.(admin := newAdmin)))
  }

  function Clawback(s: State, clk: Clock): Result<State, ErrorCode> {
    var vault := s.d.tokenVault;
    :- Require(vault in s.tokens && s.d.clawbackReceiver in s.tokens, AccountMissing);
    :- Require(!s.d.clawedBack, ClawbackAlreadyClaimed);
    :- Require(clk.ts >= s.d.clawbackStartTs, ClawbackBeforeStart);
    var tokens :- Transfer(s.tokens, vault, s.d.clawbackReceiver, s.Vault());
    Ok(s.(d := s.d.(clawedBack := true), tokens := tokens))
  }

  // ----- Instructions and runs -----

  datatype Instruction =
    | NewClaimIx(claimant: Pubkey, to: Pubkey, unlocked: u64, locked: u64, proof: seq<Bytes32>)
    | ClaimLockedIx(claimant: Pubkey, to: Pubkey)
    | SetEnableSlotIx(signer: Pubkey, enableSlot: u64)
    | SetRootIx(signer: Pubkey, newRoot: Bytes32, expectedOldRoot: Bytes32, expectedNum: u64, newMax: u64)
    | SetClawbackStartTsIx(signer: Pubkey, clawbackStartTs: i64)
    | SetClawbackReceiverIx(signer: Pubkey, account: Pubkey)
    | SetAdminIx(signer: Pubkey, newAdmin: Pubkey)
    | ClawbackIx
    | CloseClaimStatusIx(claimant: Pubkey)
    | TransferIx(signer: Pubkey, from: Pubkey, to: Pubkey, amount: u64)
    | BurnIx(signer: Pubkey, from: Pubkey, amount: u64)
    | BurnAllIx(account: Pubkey)
    | MintToIx(to: Pubkey, amount: u64)
    | OpenAccountIx(account: Pubkey, owner: Pubkey)

  datatype Event = Event(clk: Clock, ins: Instruction)

  function Apply(h: HashFn, s: State, e: Event): Result<State, ErrorCode> {
    match e.ins
    case NewClaimIx(claimant, to, unlocked, locked, proof) =>
      NewClaim(h, s, e.clk, claimant, to, unlocked, locked, proof)
    case ClaimLockedIx(claimant, to) => ClaimLocked(s, e.clk, claimant, to)
    case SetEnableSlotIx(signer, slot) => SetEnableSlot(s, signer, slot)
    case SetRootIx(signer, root, old_, num, max) => SetRoot(s, signer, root, old_, num, max)
    case SetClawbackStartTsIx(signer, ts) => SetClawbackStartTs(s, e.clk, signer, ts)
    case SetClawbackReceiverIx(signer, account) => SetClawbackReceiver(s, signer, account)
    case SetAdminIx(signer, newAdmin) => SetAdmin(s, signer, newAdmin)
    case ClawbackIx => Clawback(s, e.clk)
    case CloseClaimStatusIx(_) => Err(Panic)
    case TransferIx(signer, from, to, amount) => TransferOwn(s, signer, from, to, amount)
    case BurnIx(signer, from, amount) => BurnOwn(s, signer, from, amount)
    case BurnAllIx(account) => BurnAll(s, account)
    case MintToIx(to, amount) => MintTo(s, to, amount)
    case OpenAccountIx(account, owner) => OpenAccount(s, account, owner)
  }

  /** A failed instruction leaves no trace. */
  function Execute(h: HashFn, s: State, e: Event): State {
    var r := Apply(h, s, e);
    if r.Ok? then r.value else s
  }

  type Run = seq<Event>

  function After(h: HashFn, s: State, run: Run): State {
    if run == [] then s else Execute(h, After(h, s, run[..|run| - 1]), run[|run| - 1])
  }

  lemma {:induction false} AfterConcat(h: HashFn, s: State, a: Run, b: Run)
    ensures After(h, s, a + b) == After(h, After(h, s, a), b)
  {
    if b == [] {
      assert a + b == a;
    } else {
      assert (a + b)[..|a + b| - 1] == a + b[..|b| - 1];
      AfterConcat(h, s, a, b[..|b| - 1]);
    }
  }
}
