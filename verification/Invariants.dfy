/** What every instruction keeps: account structure, the mint's supply, and exact books of all claims. */
module Invariants {
  import opened Bytes
  import opened Sums
  import opened MerkleVerify
  import opened Vesting
  import opened Distributor

  // ----- The invariants -----

  /** The vault belongs to the distributor, and clawback waits a full day after vesting. */
  ghost predicate Sound(s: State) {
    && s.key != s.burner
    && s.d.tokenVault in s.tokens && s.tokens[s.d.tokenVault].owner == s.key
    && s.d.startTs < s.d.endTs
    && s.d.endTs + 86_400 <= s.d.clawbackStartTs
  }

  function Amount(t: TokenAccount): int {
    t.amount
  }

  /** The mint's supply is exactly what all accounts hold. */
  ghost predicate Backed(s: State) {
    s.supply == SumMap(s.tokens, Amount)
  }

  function PaidOut(c: ClaimStatus): int {
    c.unlockedAmountClaimed + c.lockedAmountWithdrawn
  }

  function Forgone(c: ClaimStatus): int {
    c.unlockedAmount - c.unlockedAmountClaimed
  }

  predicate StatusOf(s: State, c: Pubkey, status: ClaimStatus) {
    && status.claimant == c
    && status.distributor == s.key
    && status.unlockedAmountClaimed <= status.unlockedAmount
    && status.lockedAmountWithdrawn <= status.lockedAmount
  }

  /** The distributor's counters are exactly the totals over its claim statuses. */
  ghost predicate Books(s: State) {
    && s.d.numNodesClaimed == |s.statuses|
    && s.d.totalAmountClaimed == SumMap(s.statuses, PaidOut)
    && s.d.totalAmountForgone == SumMap(s.statuses, Forgone)
    && s.d.totalAmountClaimed <= s.d.maxTotalClaim
    && s.d.numNodesClaimed <= s.d.maxNumNodes
    && forall c :: c in s.statuses ==> StatusOf(s, c, s.statuses[c])
  }

  ghost predicate Inv(s: State) {
    Sound(s) && Backed(s) && Books(s)
  }

  // ----- What the two claim instructions do -----

  /** Account checks shared by both claims: the receiving account is the claimant's, hence not the vault. */
  ghost predicate MayClaim(s: State, clk: Clock, c: Pubkey, to: Pubkey) {
    && s.d.tokenVault in s.tokens && to in s.tokens
    && s.CanSign(c) && s.tokens[to].owner == c
    && !s.d.clawedBack && s.d.enableSlot <= clk.slot
  }

  ghost predicate Claims(s: State, s': State, clk: Clock, c: Pubkey, to: Pubkey, u: u64, l: u64, paid: u64) {
    && MayClaim(s, clk, c, to)
    && c !in s.statuses
    && s.d.startTs <= clk.ts
    && paid <= u
    && s.d.numNodesClaimed + 1 <= s.d.maxNumNodes
    && s.d.totalAmountClaimed + s.d.totalAmountForgone + u <= s.d.maxTotalClaim
    && Transfer(s.tokens, s.d.tokenVault, to, paid) == Ok(s'.tokens)
    && s' == s.(d := s.d.(numNodesClaimed := s.d.numNodesClaimed + 1,
                          totalAmountClaimed := s.d.totalAmountClaimed + paid,
                          totalAmountForgone := s.d.totalAmountForgone + (u - paid)),
                statuses := s.statuses[c := ClaimStatus(c, l, 0, u, paid, s.d.closable, s.key)],
                tokens := s'.tokens)
  }

  ghost predicate Withdraws(s: State, s': State, clk: Clock, c: Pubkey, to: Pubkey, amount: u64) {
    && MayClaim(s, clk, c, to)
    && c in s.statuses
    && 0 < amount
    && s.statuses[c].lockedAmountWithdrawn + amount <= s.statuses[c].lockedAmount
    && s.d.totalAmountClaimed + amount <= s.d.maxTotalClaim
    && Transfer(s.tokens, s.d.tokenVault, to, amount) == Ok(s'.tokens)
    && s' == s.(d := s.d.(totalAmountClaimed := s.d.totalAmountClaimed + amount),
                statuses := s.statuses[c :=
                  s.statuses[c].(lockedAmountWithdrawn := s.statuses[c].lockedAmountWithdrawn + amount)],
                tokens := s'.tokens)
  }

  /** A successful new claim pays the release schedule at that time, for a leaf the verifier accepts. */
  lemma NewClaimEffect(h: HashFn, s: State, clk: Clock, c: Pubkey, to: Pubkey, u: u64, l: u64, proof: seq<Bytes32>)
    requires NewClaim(h, s, clk, c, to, u, l, proof).Ok?
    ensures !WindowOverflows(clk.ts, s.d.startTs, s.d.endTs)
    ensures Released(u, clk.ts, s.d.startTs, s.d.endTs) <= u
    ensures Claims(s, NewClaim(h, s, clk, c, to, u, l, proof).value, clk, c, to, u, l,
                   Released(u, clk.ts, s.d.startTs, s.d.endTs))
    ensures Accepts(h, proof, s.d.root, ClaimLeaf(h, Entitlement(c, u, l)))
  {
    UnlockedClaimedExact(u, clk.ts, s.d.startTs, s.d.endTs);
    ReleasedMonotone(u, clk.ts, clk.ts, s.d.startTs, s.d.endTs);
  }

  /** A successful withdrawal pays what has vested by now and was not withdrawn yet. */
  lemma ClaimLockedEffect(s: State, clk: Clock, c: Pubkey, to: Pubkey)
    requires ClaimLocked(s, clk, c, to).Ok?
    ensures !WindowOverflows(clk.ts, s.d.startTs, s.d.endTs)
    ensures c in s.statuses
    ensures var amount := Vested(s.statuses[c].lockedAmount, clk.ts, s.d.startTs, s.d.endTs)
        - s.statuses[c].lockedAmountWithdrawn;
            0 < amount <= U64_MAX && Withdraws(s, ClaimLocked(s, clk, c, to).value, clk, c, to, amount)
  {
    UnlockedAmountExact(s.statuses[c].lockedAmount, clk.ts, s.d.startTs, s.d.endTs);
  }

  ghost predicate ReRoots(s: State, s': State, newRoot: Bytes32, oldRoot: Bytes32, num: u64, newMax: u64) {
    && (s.d.mint == DFX_MAINNET || s.d.mint == DFX_DEVNET)
    && !s.d.clawedBack && s.d.enableSlot == U64_MAX
    && s.d.root == oldRoot && s.d.numNodesClaimed == num
    && s.d.totalAmountClaimed + s.d.totalAmountForgone <= newMax <= s.d.maxTotalClaim
    && s.d.tokenVault in s.tokens
    && s.Vault() >= s.d.maxTotalClaim - s.d.totalAmountClaimed
    && Burn(s.tokens, s.supply, s.d.tokenVault, s.d.maxTotalClaim - newMax) == Ok((s'.tokens, s'.supply))
    && s' == s.(d := s.d.(root := newRoot, maxTotalClaim := newMax), tokens := s'.tokens, supply := s'.supply)
  }

  /** What each successful instruction requires and changes. */
  ghost predicate Effect(s: State, e: Event, s': State) {
    match e.ins
    case NewClaimIx(c, to, u, l, _) =>
      && c in s'.statuses
      && Claims(s, s', e.clk, c, to, u, l, s'.statuses[c].unlockedAmountClaimed)
    case ClaimLockedIx(c, to) =>
      && c in s.statuses && c in s'.statuses
      && s.statuses[c].lockedAmountWithdrawn <= s'.statuses[c].lockedAmountWithdrawn
      && Withdraws(s, s', e.clk, c, to, s'.statuses[c].lockedAmountWithdrawn - s.statuses[c].lockedAmountWithdrawn)
    case SetEnableSlotIx(signer, slot) => signer == s.d.admin && s' == s.(d := s.d.(enableSlot := slot))
    case SetRootIx(signer, newRoot, oldRoot, num, newMax) =>
      signer == s.d.admin && ReRoots(s, s', newRoot, oldRoot, num, newMax)
    case SetClawbackStartTsIx(signer, ts) =>
      && signer == s.d.admin
      && !s.d.clawedBack && e.clk.ts < ts && s.d.endTs + 86_400 <= ts
      && s' == s.(d := s.d.(clawbackStartTs := ts))
    case SetClawbackReceiverIx(signer, account) =>
      signer == s.d.admin && s' == s.(d := s.d.(clawbackReceiver := account))
    case SetAdminIx(signer, newAdmin) => signer == s.d.admin && s' == s.(d := s.d.(admin := newAdmin))
    case ClawbackIx =>
      && !s.d.clawedBack && s.d.clawbackStartTs <= e.clk.ts
      && Transfer(s.tokens, s.d.tokenVault, s.d.clawbackReceiver, s.Vault()) == Ok(s'.tokens)
      && s' == s.(d := s.d.(clawedBack := true), tokens := s'.tokens)
    case CloseClaimStatusIx(_) => false
    case TransferIx(signer, from, to, amount) =>
      && from in s.tokens && s.CanSign(signer) && s.tokens[from].owner == signer
      && Transfer(s.tokens, from, to, amount) == Ok(s'.tokens)
      && s' == s.(tokens := s'.tokens)
    case BurnIx(signer, from, amount) =>
      && from in s.tokens && s.CanSign(signer) && s.tokens[from].owner == signer
      && Burn(s.tokens, s.supply, from, amount) == Ok((s'.tokens, s'.supply))
      && s' == s.(tokens := s'.tokens, supply := s'.supply)
    case BurnAllIx(account) =>
      && account in s.tokens && s.tokens[account].owner == s.burner
      && Burn(s.tokens, s.supply, account, s.tokens[account].amount) == Ok((s'.tokens, s'.supply))
      && s' == s.(tokens := s'.tokens, supply := s'.supply)
    case MintToIx(to, amount) =>
      && to in s.tokens && s.tokens[to].amount + amount <= U64_MAX && s.supply + amount <= U64_MAX
      && s' == s.(tokens := s.tokens[to := s.tokens[to].(amount := s.tokens[to].amount + amount)],
                 supply := s.supply + amount)
    case OpenAccountIx(account, owner) =>
      && account !in s.tokens
      && s' == s.(tokens := s.tokens[account := TokenAccount(owner, 0)])
  }

  lemma SetRootEffect(s: State, signer: Pubkey, newRoot: Bytes32, oldRoot: Bytes32, num: u64, newMax: u64)
    requires SetRoot(s, signer, newRoot, oldRoot, num, newMax).Ok?
    ensures ReRoots(s, SetRoot(s, signer, newRoot, oldRoot, num, newMax).value, newRoot, oldRoot, num, newMax)
  {
    if newMax == s.d.maxTotalClaim {
      var v := s.d.tokenVault;
      assert s.tokens[v := s.tokens[v].(amount := s.tokens[v].amount - 0)] == s.tokens;
    }
  }

  lemma BurnAllEffect(s: State, account: Pubkey)
    requires BurnAll(s, account).Ok?
    ensures var s' := BurnAll(s, account).value;
            && account in s.tokens && s.tokens[account].owner == s.burner
            && Burn(s.tokens, s.supply, account, s.tokens[account].amount) == Ok((s'.tokens, s'.supply))
            && s' == s.(tokens := s'.tokens, supply := s'.supply)
  {
    if s.tokens[account].amount == 0 {
      assert s.tokens[account := s.tokens[account].(amount := 0)] == s.tokens;
    }
  }

  /** Every instruction either fails, and changes nothing, or has its effect. */
  lemma StepEffect(h: HashFn, s: State, e: Event)
    ensures var s' := Execute(h, s, e);
            if Apply(h, s, e).Ok? then Effect(s, e, s') else s' == s
  {
    if Apply(h, s, e).Ok? {
      match e.ins
      case NewClaimIx(c, to, u, l, proof) => NewClaimEffect(h, s, e.clk, c, to, u, l, proof);
      case ClaimLockedIx(c, to) => ClaimLockedEffect(s, e.clk, c, to);
      case SetRootIx(signer, newRoot, oldRoot, num, newMax) => SetRootEffect(s, signer, newRoot, oldRoot, num, newMax);
      case BurnAllIx(account) => BurnAllEffect(s, account);
      case _ =>
    }
  }

  predicate IsClaim(ins: Instruction) {
    ins.NewClaimIx? || ins.ClaimLockedIx?
  }

  /** Nothing but a claim touches the statuses or the counters. */
  lemma OtherStepsKeepBooks(s: State, e: Event, s': State)
    requires Effect(s, e, s') && !IsClaim(e.ins)
    ensures s'.statuses == s.statuses
    ensures s'.d.numNodesClaimed == s.d.numNodesClaimed
    ensures s'.d.totalAmountClaimed == s.d.totalAmountClaimed && s'.d.totalAmountForgone == s.d.totalAmountForgone
    ensures !e.ins.SetRootIx? ==> s'.d.maxTotalClaim == s.d.maxTotalClaim && s'.d.root == s.d.root
  {
  }

  /** Fields that no instruction ever changes. */
  ghost predicate SameDistributor(s: State, s': State) {
    && s'.key == s.key && s'.burner == s.burner
    && s'.d.mint == s.d.mint && s'.d.tokenVault == s.d.tokenVault && s'.d.maxNumNodes == s.d.maxNumNodes
    && s'.d.startTs == s.d.startTs && s'.d.endTs == s.d.endTs
    && s'.d.version == s.d.version && s'.d.closable == s.d.closable
  }

  lemma Constants(s: State, e: Event, s': State)
    requires Effect(s, e, s')
    ensures SameDistributor(s, s')
  {
  }

  /** The key that must have signed an instruction, if it is the admin's to give. */
  function AdminSigner(ins: Instruction): Option<Pubkey> {
    match ins
    case SetEnableSlotIx(signer, _) => Some(signer)
    case SetRootIx(signer, _, _, _, _) => Some(signer)
    case SetClawbackStartTsIx(signer, _) => Some(signer)
    case SetClawbackReceiverIx(signer, _) => Some(signer)
    case SetAdminIx(signer, _) => Some(signer)
    case _ => None
  }

  /** Only the current admin's signature changes the root, the cap, the pause, the clawback terms or the admin. */
  lemma OnlyAdminChangesTerms(s: State, e: Event, s': State)
    requires Effect(s, e, s')
    ensures s'.d.root != s.d.root || s'.d.maxTotalClaim != s.d.maxTotalClaim || s'.d.enableSlot != s.d.enableSlot
         || s'.d.clawbackStartTs != s.d.clawbackStartTs || s'.d.clawbackReceiver != s.d.clawbackReceiver
         || s'.d.admin != s.d.admin
         ==> AdminSigner(e.ins) == Some(s.d.admin)
  {
  }

  // ----- Token movements -----

  lemma TransferKeepsSum(tokens: Tokens, from: Pubkey, to: Pubkey, amount: u64)
    requires Transfer(tokens, from, to, amount).Ok?
    ensures SumMap(Transfer(tokens, from, to, amount).value, Amount) == SumMap(tokens, Amount)
  {
    if from != to {
      var payer := tokens[from].(amount := tokens[from].amount - amount);
      var payee := tokens[to].(amount := tokens[to].amount + amount);
      SumMapPut(tokens, Amount, from, payer);
      SumMapPut(tokens[from := payer], Amount, to, payee);
    }
  }

  lemma BurnKeepsBacking(tokens: Tokens, supply: u64, from: Pubkey, amount: u64)
    requires Burn(tokens, supply, from, amount).Ok?
    ensures SumMap(Burn(tokens, supply, from, amount).value.0, Amount) == SumMap(tokens, Amount) - amount
  {
    SumMapPut(tokens, Amount, from, tokens[from].(amount := tokens[from].amount - amount));
  }

  /** In a backed mint a transfer fails only for lack of funds or accounts: no balance can overflow. */
  lemma TransferNeverOverflows(s: State, from: Pubkey, to: Pubkey, amount: u64)
    requires Backed(s) && from in s.tokens && to in s.tokens
    ensures Transfer(s.tokens, from, to, amount).Ok? <==> amount <= s.tokens[from].amount
  {
    if from != to {
      SumMapTwo(s.tokens, Amount, from, to);
    }
  }

  // ----- Exactly when the instructions succeed -----

  /** In a state that keeps the invariants, a new claim succeeds exactly under these conditions. */
  lemma NewClaimSucceedsIff(h: HashFn, s: State, clk: Clock, c: Pubkey, to: Pubkey, u: u64, l: u64, proof: seq<Bytes32>)
    requires Inv(s)
    ensures NewClaim(h, s, clk, c, to, u, l, proof).Ok? <==>
      && MayClaim(s, clk, c, to)
      && c !in s.statuses
      && s.d.startTs <= clk.ts
      && s.d.numNodesClaimed < s.d.maxNumNodes
      && Accepts(h, proof, s.d.root, ClaimLeaf(h, Entitlement(c, u, l)))
      && !WindowOverflows(clk.ts, s.d.startTs, s.d.endTs)
      && Released(u, clk.ts, s.d.startTs, s.d.endTs) <= s.Vault()
      && s.d.totalAmountClaimed + s.d.totalAmountForgone + u <= s.d.maxTotalClaim
  {
    UnlockedClaimedExact(u, clk.ts, s.d.startTs, s.d.endTs);
    ReleasedMonotone(u, clk.ts, clk.ts, s.d.startTs, s.d.endTs);
    if MayClaim(s, clk, c, to) {
      TransferNeverOverflows(s, s.d.tokenVault, to, Released(u, clk.ts, s.d.startTs, s.d.endTs));
    }
  }

  /** A re-root succeeds exactly under these conditions: its subtractions and its burn never fail on their own. */
  lemma SetRootSucceedsIff(s: State, signer: Pubkey, newRoot: Bytes32, oldRoot: Bytes32, num: u64, newMax: u64)
    requires Inv(s)
    ensures SetRoot(s, signer, newRoot, oldRoot, num, newMax).Ok? <==>
      && signer == s.d.admin
      && (s.d.mint == DFX_MAINNET || s.d.mint == DFX_DEVNET)
      && !s.d.clawedBack && s.d.enableSlot == U64_MAX
      && s.d.root == oldRoot && |s.statuses| == num
      && s.d.totalAmountClaimed + s.d.totalAmountForgone <= newMax <= s.d.maxTotalClaim
      && s.Vault() >= s.d.maxTotalClaim - s.d.totalAmountClaimed
  {
    SumMapNonNegative(s.tokens, Amount);
    assert Amount(s.tokens[s.d.tokenVault]) <= s.supply;
  }

  /**
   The program's admin can create a distributor exactly when it vests to a future end and is clawed
   back a day later or more.
   */
  lemma NewDistributorSucceedsIff(
    key: Pubkey, burner: Pubkey, tokens: Tokens, supply: u64, clk: Clock,
    version: u64, mint: Pubkey, vault: Pubkey, receiver: Pubkey, admin: Pubkey, root: Bytes32, max: u64, nodes: u64,
    startTs: i64, endTs: i64, clawbackStartTs: i64, enableSlot: u64, closable: bool)
    ensures NewDistributor(key, burner, tokens, supply, clk, version, mint, vault, receiver, admin, root, max, nodes,
                           startTs, endTs, clawbackStartTs, enableSlot, closable).Ok? <==>
      && admin == PROGRAM_ADMIN
      && receiver in tokens && vault in tokens && tokens[vault].owner == key
      && startTs < endTs && clk.ts < endTs && endTs + 86_400 <= clawbackStartTs
  {
  }

  /** The clawback date moves exactly to future dates a day or more past vesting, before clawback, by the admin. */
  lemma SetClawbackStartTsSucceedsIff(s: State, clk: Clock, signer: Pubkey, ts: i64)
    ensures SetClawbackStartTs(s, clk, signer, ts).Ok? <==>
      signer == s.d.admin && !s.d.clawedBack && clk.ts < ts && s.d.endTs + 86_400 <= ts
  {
  }

  /** The other settings are the admin's alone, and must change something where the program asks for it. */
  lemma SettingsSucceedIff(s: State, signer: Pubkey, slot: u64, account: Pubkey)
    ensures SetEnableSlot(s, signer, slot).Ok? <==> signer == s.d.admin
    ensures SetClawbackReceiver(s, signer, account).Ok? <==>
      signer == s.d.admin && account in s.tokens && account != s.d.clawbackReceiver
    ensures SetAdmin(s, signer, account).Ok? <==> signer == s.d.admin && account != s.d.admin
  {
  }

  // ----- Steps keep the invariants -----

  lemma BackedStep(s: State, e: Event, s': State)
    requires Backed(s) && Effect(s, e, s')
    ensures Backed(s')
  {
    match e.ins
    case NewClaimIx(c, to, _, _, _) =>
      TransferKeepsSum(s.tokens, s.d.tokenVault, to, s'.statuses[c].unlockedAmountClaimed);
    case ClaimLockedIx(c, to) =>
      TransferKeepsSum(s.tokens, s.d.tokenVault, to,
                       s'.statuses[c].lockedAmountWithdrawn - s.statuses[c].lockedAmountWithdrawn);
    case ClawbackIx => TransferKeepsSum(s.tokens, s.d.tokenVault, s.d.clawbackReceiver, s.Vault());
    case TransferIx(_, from, to, amount) => TransferKeepsSum(s.tokens, from, to, amount);
    case SetRootIx(_, _, _, _, newMax) =>
      BurnKeepsBacking(s.tokens, s.supply, s.d.tokenVault, s.d.maxTotalClaim - newMax);
    case BurnIx(_, from, amount) => BurnKeepsBacking(s.tokens, s.supply, from, amount);
    case BurnAllIx(account) => BurnKeepsBacking(s.tokens, s.supply, account, s.tokens[account].amount);
    case MintToIx(to, amount) => SumMapPut(s.tokens, Amount, to, s'.tokens[to]);
    case OpenAccountIx(account, owner) => SumMapPut(s.tokens, Amount, account, s'.tokens[account]);
    case _ =>
  }

  /** No step closes an account or changes its owner. */
  lemma AccountsStay(s: State, e: Event, s': State, a: Pubkey)
    requires Effect(s, e, s') && a in s.tokens
    ensures a in s'.tokens && s'.tokens[a].owner == s.tokens[a].owner
  {
  }

  lemma ClawbackDateStays(s: State, e: Event, s': State)
    requires Effect(s, e, s') && s.d.endTs + 86_400 <= s.d.clawbackStartTs
    ensures s'.d.endTs + 86_400 <= s'.d.clawbackStartTs
  {
  }

  lemma SoundStep(s: State, e: Event, s': State)
    requires Sound(s) && Effect(s, e, s')
    ensures Sound(s')
  {
    Constants(s, e, s');
    AccountsStay(s, e, s', s.d.tokenVault);
    ClawbackDateStays(s, e, s');
  }

  // ----- The books -----

  lemma BooksAfterClaim(s: State, s': State, clk: Clock, c: Pubkey, to: Pubkey, u: u64, l: u64, paid: u64)
    requires Books(s) && Claims(s, s', clk, c, to, u, l, paid)
    ensures Books(s')
  {
    SumMapPut(s.statuses, PaidOut, c, s'.statuses[c]);
    SumMapPut(s.statuses, Forgone, c, s'.statuses[c]);
  }

  lemma BooksAfterWithdrawal(s: State, s': State, clk: Clock, c: Pubkey, to: Pubkey, amount: u64)
    requires Books(s) && Withdraws(s, s', clk, c, to, amount)
    ensures Books(s')
  {
    SumMapPut(s.statuses, PaidOut, c, s'.statuses[c]);
    SumMapPut(s.statuses, Forgone, c, s'.statuses[c]);
    assert s'.statuses.Keys == s.statuses.Keys;
  }

  lemma BooksStep(s: State, e: Event, s': State)
    requires Books(s) && Effect(s, e, s')
    ensures Books(s')
  {
    match e.ins
    case NewClaimIx(c, to, u, l, proof) =>
      BooksAfterClaim(s, s', e.clk, c, to, u, l, s'.statuses[c].unlockedAmountClaimed);
    case ClaimLockedIx(c, to) =>
      BooksAfterWithdrawal(s, s', e.clk, c, to,
                           s'.statuses[c].lockedAmountWithdrawn - s.statuses[c].lockedAmountWithdrawn);
    case _ =>
      OtherStepsKeepBooks(s, e, s');
      Constants(s, e, s');
  }

  /** Every instruction, successful or not, keeps the structure, the backing and the books. */
  lemma InvStep(h: HashFn, s: State, e: Event)
    requires Inv(s)
    ensures Inv(Execute(h, s, e))
  {
    StepEffect(h, s, e);
    var s' := Execute(h, s, e);
    if Apply(h, s, e).Ok? {
      SoundStep(s, e, s');
      BackedStep(s, e, s');
      BooksStep(s, e, s');
    }
  }

  /** A new distributor holds what it was created with, and nothing has happened to it yet. */
  lemma NewDistributorStores(
    key: Pubkey, burner: Pubkey, tokens: Tokens, supply: u64, clk: Clock,
    version: u64, mint: Pubkey, vault: Pubkey, receiver: Pubkey, admin: Pubkey, root: Bytes32, max: u64, nodes: u64,
    startTs: i64, endTs: i64, clawbackStartTs: i64, enableSlot: u64, closable: bool)
    requires NewDistributor(key, burner, tokens, supply, clk, version, mint, vault, receiver, admin, root, max, nodes,
                            startTs, endTs, clawbackStartTs, enableSlot, closable).Ok?
    ensures var s :=
              NewDistributor(key, burner, tokens, supply, clk, version, mint, vault, receiver, admin, root, max, nodes,
                            startTs, endTs, clawbackStartTs, enableSlot, closable).value;
      && s.key == key && s.burner == burner && s.tokens == tokens && s.supply == supply && s.statuses == map[]
      && s.d.version == version && s.d.mint == mint && s.d.tokenVault == vault
      && s.d.root == root && s.d.maxTotalClaim == max && s.d.maxNumNodes == nodes
      && s.d.startTs == startTs && s.d.endTs == endTs && s.d.clawbackStartTs == clawbackStartTs
      && s.d.clawbackReceiver == receiver && s.d.admin == admin
      && s.d.enableSlot == enableSlot && s.d.closable == closable && !s.d.clawedBack
      && s.d.totalAmountClaimed == s.d.totalAmountForgone == s.d.numNodesClaimed == 0
  {
  }

  /** A new distributor starts with empty books. */
  lemma NewDistributorInv(
    key: Pubkey, burner: Pubkey, tokens: Tokens, supply: u64, clk: Clock,
    version: u64, mint: Pubkey, vault: Pubkey, receiver: Pubkey, admin: Pubkey, root: Bytes32, max: u64, nodes: u64,
    startTs: i64, endTs: i64, clawbackStartTs: i64, enableSlot: u64, closable: bool)
    requires key != burner && supply == SumMap(tokens, Amount)
    requires NewDistributor(key, burner, tokens, supply, clk, version, mint, vault, receiver, admin, root, max, nodes,
                            startTs, endTs, clawbackStartTs, enableSlot, closable).Ok?
    ensures Inv(NewDistributor(key, burner, tokens, supply, clk, version, mint, vault, receiver, admin,
                               root, max, nodes,
                               startTs, endTs, clawbackStartTs, enableSlot, closable).value)
  {
  }

  /** The books, the backing and the structure hold in every reachable state. */
  lemma {:induction false} RunKeepsInv(h: HashFn, s: State, run: Run)
    requires Inv(s)
    ensures Inv(After(h, s, run))
  {
    if run != [] {
      RunKeepsInv(h, s, run[..|run| - 1]);
      InvStep(h, After(h, s, run[..|run| - 1]), run[|run| - 1]);
    }
  }
}
