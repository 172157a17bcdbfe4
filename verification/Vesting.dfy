/**
 Vesting arithmetic: the on-chain computation (programs/merkle-distributor/src/state/claim_status.rs)
 with its machine widths, the API's second implementation of it (api/src/router.rs), and the exact
 schedule both are proved to compute.
 */
module Vesting {
  import opened Bytes

  datatype ErrorCode =
    | InsufficientUnlockedTokens | InvalidProof | ExceededMaxClaim | MaxNodesExceeded
    | Unauthorized | OwnerMismatch | ClawbackDuringVesting | ClawbackBeforeStart
    | ClawbackAlreadyClaimed | InsufficientClawbackDelay | SameClawbackReceiver | SameAdmin
    | ClaimExpired | ArithmeticError | StartTimestampAfterEnd | TimestampsNotInFuture
    | ClaimingIsNotStarted | MintNotReRootable | DistributorNotPaused | RootMismatch
    | MaxTotalClaimIncrease | ClaimCountMismatch
    // raised outside the distributor program
    | AccountInUse        // `init` on an existing account
    | AccountMissing      // an account that does not exist or does not meet its constraint
    | InsufficientFunds   // the token program
    | Panic               // an aborted instruction

  const START_CLAIM_PCT: u128 := 500_000
  const PCT_PRECISION: u128 := 1_000_000

  // ----- Machine arithmetic -----

  function CheckedSubI64(a: i64, b: i64): Result<i64, ErrorCode> {
    if -I64_MAX - 1 <= a - b <= I64_MAX then Ok(a - b) else Err(ArithmeticError)
  }

  function CheckedAddI64(a: i64, b: i64): Result<i64, ErrorCode> {
    if -I64_MAX - 1 <= a + b <= I64_MAX then Ok(a + b) else Err(ArithmeticError)
  }

  function CheckedAddU64(a: u64, b: u64): Result<u64, ErrorCode> {
    if a + b <= U64_MAX then Ok(a + b) else Err(ArithmeticError)
  }

  function CheckedSubU64(a: u64, b: u64): Result<u64, ErrorCode> {
    if b <= a then Ok(a - b) else Err(ArithmeticError)
  }

  function CheckedMulU128(a: u128, b: u128): Result<u128, ErrorCode> {
    if a * b <= U128_MAX then Ok(a * b) else Err(ArithmeticError)
  }

  function CheckedDivU128(a: u128, b: u128): Result<u128, ErrorCode> {
    if b == 0 then Err(ArithmeticError)
    else
      DivWithin(a, b);
      Ok(a / b)
  }

  /** `i64 as u128`: a negative value wraps around. */
  function I64AsU128(a: i64): u128 {
    if a >= 0 then a else a + U128_MAX + 1
  }

  /** `u128 as u64`: the high half is dropped. */
  function U128AsU64(a: u128): u64 {
    a % 0x1_0000_0000_0000_0000
  }

  // ----- The program -----

  /** x times into over total, in u128 and cut back to u64. */
  function Prorated(x: u64, into: i64, total: i64): Result<u64, ErrorCode> {
    var product :- CheckedMulU128(I64AsU128(into), x);
    var amount :- CheckedDivU128(product, I64AsU128(total));
    Ok(U128AsU64(amount))
  }

  /** The part of an unlocked amount that is paid from the start on. */
  function StartAmount(unlocked: u64): Result<u64, ErrorCode> {
    var product :- CheckedMulU128(unlocked, START_CLAIM_PCT);
    var amount :- CheckedDivU128(product, PCT_PRECISION);
    Ok(U128AsU64(amount))
  }

  /** How much of a locked amount has vested (`ClaimStatus::unlocked_amount`). */
  function UnlockedAmount(locked: u64, now: i64, start: i64, end: i64): Result<u64, ErrorCode> {
    if now >= start then
      if now >= end then Ok(locked)
      else
        var into :- CheckedSubI64(now, start);
        var total :- CheckedSubI64(end, start);
        Prorated(locked, into, total)
    else Ok(0)
  }

  /** What can be withdrawn now on top of earlier withdrawals (`ClaimStatus::amount_withdrawable`). */
  function AmountWithdrawable(locked: u64, withdrawn: u64, now: i64, start: i64, end: i64): Result<u64, ErrorCode> {
    var amount :- UnlockedAmount(locked, now, start, end);
    CheckedSubU64(amount, withdrawn)
  }

  /** The start amount plus the prorated rest. */
  function ClaimAfterStart(unlocked: u64, startAmount: u64, into: i64, total: i64): Result<u64, ErrorCode> {
    var rest :- CheckedSubU64(unlocked, startAmount);
    var bonus :- Prorated(rest, into, total);
    CheckedAddU64(startAmount, bonus)
  }

  function ClaimInWindow(unlocked: u64, into: i64, total: i64): Result<u64, ErrorCode> {
    var startAmount :- StartAmount(unlocked);
    ClaimAfterStart(unlocked, startAmount, into, total)
  }

  /** What a new claim pays out of the unlocked amount (`ClaimStatus::update_unlocked_amount_claimed`). */
  function UnlockedClaimed(unlocked: u64, now: i64, start: i64, end: i64): Result<u64, ErrorCode> {
    if now >= start then
      if now >= end then Ok(unlocked)
      else
        var into :- CheckedSubI64(now, start);
        var total :- CheckedSubI64(end, start);
        ClaimInWindow(unlocked, into, total)
    else Err(ClaimingIsNotStarted)
  }

  /** The API's figure for the unlocked part; None stands for a panic on overflow. */
  function QuoteUnlocked(unlocked: u64, now: i64, start: i64, end: i64, pct: u128): Option<u64> {
    if now < start then Some(0)
    else if now >= end then Some(unlocked)
    else if end - start > I64_MAX || pct * 1_000 > U128_MAX || unlocked * (pct * 1_000) > U128_MAX then None
    else
      DivWithin(unlocked * (pct * 1_000), 100_000);
      QuoteAfterStart(unlocked, U128AsU64(unlocked * (pct * 1_000) / 100_000), now - start, end - start)
  }

  /** The start amount plus the linearly vested rest. */
  function QuoteAfterStart(unlocked: u64, startAmount: u64, into: i64, total: i64): Option<u64>
    requires 0 <= into < total
  {
    if startAmount > unlocked then None
    else
      BoundedProduct(into, unlocked - startAmount);
      DivWithin(into * (unlocked - startAmount), total);
      var sum := startAmount + U128AsU64(into * (unlocked - startAmount) / total);
      if sum > U64_MAX then None else Some(sum)
  }

  /** The API's figure for the locked part; None stands for a panic on overflow. */
  function QuoteLocked(locked: u64, now: i64, start: i64, end: i64): Option<u64> {
    if now < start then Some(0)
    else if now >= end then Some(locked)
    else if end - start > I64_MAX then None
    else
      BoundedProduct(now - start, locked);
      DivWithin((now - start) * locked, end - start);
      Some(U128AsU64((now - start) * locked / (end - start)))
  }

  /** What the eligibility endpoint reports as claimable for someone without a claim status. */
  function Quote(unlocked: u64, locked: u64, now: i64, start: i64, end: i64, pct: u128): Option<u64> {
    var u, l := QuoteUnlocked(unlocked, now, start, end, pct), QuoteLocked(locked, now, start, end);
    if u.Some? && l.Some? && u.value + l.value <= U64_MAX then Some(u.value + l.value) else None
  }

  // ----- The exact schedule -----

  /** x vests linearly from start to end, rounded down. */
  function Vested(x: nat, now: int, start: int, end: int): (v: nat)
  {
    if now < start then 0
    else if now >= end then x
    else
      ProductNonNegative(now - start, x);
      (now - start) * x / (end - start)
  }

  /** Half is paid at once and the other half vests. */
  function Released(x: nat, now: int, start: int, end: int): nat {
    if now < start then 0 else if now >= end then x else x / 2 + Vested(x - x / 2, now, start, end)
  }

  /** The one failure: a vesting window longer than an i64, asked about while it is open. */
  predicate WindowOverflows(now: i64, start: i64, end: i64) {
    start <= now < end && end - start > I64_MAX
  }

  // ----- Arithmetic facts -----

  lemma ProductMonotone(a: int, b: int, c: int)
    requires a <= b && c >= 0
    ensures a * c <= b * c
  {
  }

  lemma DivBounds(a: int, d: int)
    requires d > 0
    ensures a / d * d <= a < (a / d + 1) * d
  {
    assert a == d * (a / d) + a % d;
  }

  lemma DivWithin(a: int, b: int)
    requires a >= 0 && b > 0
    ensures 0 <= a / b <= a
  {
    var q := a / b;
    DivBounds(a, b);
    if q < 0 {
      ProductMonotone(q + 1, 0, b);
    } else {
      ProductMonotone(1, b, q);
    }
  }

  lemma BoundedProduct(a: int, b: int)
    requires 0 <= a <= U64_MAX && 0 <= b <= U64_MAX
    ensures 0 <= a * b <= U128_MAX
  {
    ProductMonotone(a, U64_MAX, b);
  }

  lemma DivMonotone(a: int, b: int, d: int)
    requires 0 <= a <= b && d > 0
    ensures a / d <= b / d
  {
    var p, q := a / d, b / d;
    DivBounds(a, d);
    DivBounds(b, d);
    if q + 1 <= p {
      ProductMonotone(q + 1, p, d);
    }
  }

  lemma DivOfMultiple(d: int, x: int)
    requires d > 0 && x >= 0
    ensures d * x / d == x
  {
    var q := d * x / d;
    DivBounds(d * x, d);
    if q < x {
      ProductMonotone(q + 1, x, d);
    } else if q > x {
      ProductMonotone(x + 1, q, d);
    }
  }

  lemma VestedWithin(x: nat, now: int, start: int, end: int)
    ensures Vested(x, now, start, end) <= x
  {
    if start <= now < end {
      ProductMonotone(now - start, end - start, x);
      DivMonotone((now - start) * x, (end - start) * x, end - start);
      DivOfMultiple(end - start, x);
    }
  }

  /** Rounding down: the vested part is the largest whole amount not ahead of the straight line. */
  lemma VestedIsFloor(x: nat, now: int, start: int, end: int, v: nat)
    requires start <= now < end
    ensures v <= Vested(x, now, start, end) <==> v * (end - start) <= (now - start) * x
  {
    var d, p, q := end - start, (now - start) * x, Vested(x, now, start, end);
    ProductNonNegative(now - start, x);
    assert p == d * q + p % d;
    if v <= q {
      ProductMonotone(v, q, d);
    } else {
      ProductMonotone(q + 1, v, d);
    }
  }

  lemma VestedMonotone(x: nat, t: int, now: int, start: int, end: int)
    requires t <= now
    ensures Vested(x, t, start, end) <= Vested(x, now, start, end)
  {
    if now >= end {
      VestedWithin(x, t, start, end);
    } else if start <= t {
      ProductMonotone(t - start, now - start, x);
      ProductNonNegative(t - start, x);
      DivMonotone((t - start) * x, (now - start) * x, end - start);
    }
  }

  lemma ReleasedMonotone(x: nat, t: int, now: int, start: int, end: int)
    requires t <= now
    ensures Released(x, t, start, end) <= Released(x, now, start, end) <= x
  {
    VestedMonotone(x - x / 2, t, now, start, end);
    VestedWithin(x - x / 2, now, start, end);
    VestedWithin(x - x / 2, t, start, end);
  }

  // ----- The program computes the schedule -----

  /** No product or cast loses bits: the locked computation is exact, and fails only on an over-long open window. */
  lemma UnlockedAmountExact(locked: u64, now: i64, start: i64, end: i64)
    ensures UnlockedAmount(locked, now, start, end) ==
            if WindowOverflows(now, start, end) then Err(ArithmeticError) else Ok(Vested(locked, now, start, end))
  {
    if start <= now < end && end - start <= I64_MAX {
      ProratedExact(locked, now, start, end);
    }
  }

  lemma ProratedExact(x: u64, now: i64, start: i64, end: i64)
    requires start <= now < end && end - start <= I64_MAX
    ensures Prorated(x, now - start, end - start) == Ok(Vested(x, now, start, end))
  {
    BoundedProduct(now - start, x);
    VestedWithin(x, now, start, end);
  }

  lemma StartAmountExact(x: u64)
    ensures StartAmount(x) == Ok(x / 2)
  {
    assert x * 500_000 / 1_000_000 == x / 2;
  }

  /**
   The unlocked computation pays exactly the release schedule, and fails only before the start or on an
   over-long open window.
   */
  lemma UnlockedClaimedExact(unlocked: u64, now: i64, start: i64, end: i64)
    ensures UnlockedClaimed(unlocked, now, start, end) ==
            if now < start then Err(ClaimingIsNotStarted)
            else if WindowOverflows(now, start, end) then Err(ArithmeticError)
            else Ok(Released(unlocked, now, start, end))
  {
    if start <= now < end {
      if end - start <= I64_MAX {
        ClaimedIsReleased(unlocked, unlocked / 2, now, start, end);
      }
    }
  }

  lemma ClaimAfterStartExact(unlocked: u64, half: u64, now: i64, start: i64, end: i64)
    requires start <= now < end && end - start <= I64_MAX && half <= unlocked
    ensures ClaimAfterStart(unlocked, half, now - start, end - start)
          == Ok(half + Vested(unlocked - half, now, start, end))
  {
    ProratedExact(unlocked - half, now, start, end);
    VestedWithin(unlocked - half, now, start, end);
  }

  lemma UnlockedClaimedUnfold(unlocked: u64, now: i64, start: i64, end: i64)
    requires start <= now < end && end - start <= I64_MAX
    ensures UnlockedClaimed(unlocked, now, start, end) == ClaimInWindow(unlocked, now - start, end - start)
  {
  }

  lemma UnlockedClaimedInWindow(unlocked: u64, half: u64, now: i64, start: i64, end: i64)
    requires start <= now < end && end - start <= I64_MAX
    requires StartAmount(unlocked) == Ok(half) && half <= unlocked
    ensures UnlockedClaimed(unlocked, now, start, end) == Ok(half + Vested(unlocked - half, now, start, end))
  {
    UnlockedClaimedUnfold(unlocked, now, start, end);
    ClaimAfterStartExact(unlocked, half, now, start, end);
  }

  lemma ReleasedInWindow(x: nat, half: nat, now: int, start: int, end: int)
    requires start <= now < end && half == x / 2
    ensures Released(x, now, start, end) == half + Vested(x - half, now, start, end)
  {
  }

  lemma ClaimedIsReleased(unlocked: u64, half: u64, now: i64, start: i64, end: i64)
    requires start <= now < end && end - start <= I64_MAX && half == unlocked / 2
    ensures UnlockedClaimed(unlocked, now, start, end) == Ok(Released(unlocked, now, start, end))
  {
    assert StartAmount(unlocked) == Ok(half) by {
      StartAmountExact(unlocked);
    }
    assert Released(unlocked, now, start, end) == half + Vested(unlocked - half, now, start, end) by {
      ReleasedInWindow(unlocked, half, now, start, end);
    }
    UnlockedClaimedInWindow(unlocked, half, now, start, end);
  }

  lemma QuoteAfterStartExact(unlocked: u64, half: u64, now: i64, start: i64, end: i64)
    requires start <= now < end && end - start <= I64_MAX && half <= unlocked
    ensures QuoteAfterStart(unlocked, half, now - start, end - start)
          == Some(half + Vested(unlocked - half, now, start, end))
  {
    BoundedProduct(now - start, unlocked - half);
    VestedWithin(unlocked - half, now, start, end);
  }

  lemma QuoteInWindow(unlocked: u64, half: u64, now: i64, start: i64, end: i64)
    requires start <= now < end && end - start <= I64_MAX && half == unlocked / 2
    ensures QuoteUnlocked(unlocked, now, start, end, 50) == QuoteAfterStart(unlocked, half, now - start, end - start)
  {
    assert unlocked * (50 * 1_000) / 100_000 == half;
  }

  lemma QuoteIsReleased(unlocked: u64, half: u64, now: i64, start: i64, end: i64)
    requires start <= now < end && end - start <= I64_MAX && half == unlocked / 2
    ensures QuoteUnlocked(unlocked, now, start, end, 50) == Some(Released(unlocked, now, start, end))
  {
    QuoteInWindow(unlocked, half, now, start, end);
    QuoteAfterStartExact(unlocked, half, now, start, end);
    ReleasedInWindow(unlocked, half, now, start, end);
  }

  lemma QuoteUnlockedExact(unlocked: u64, now: i64, start: i64, end: i64)
    ensures QuoteUnlocked(unlocked, now, start, end, 50) ==
            if WindowOverflows(now, start, end) then None else Some(Released(unlocked, now, start, end))
  {
    if start <= now < end && end - start <= I64_MAX {
      QuoteIsReleased(unlocked, unlocked / 2, now, start, end);
    }
  }

  lemma QuoteLockedExact(locked: u64, now: i64, start: i64, end: i64)
    ensures QuoteLocked(locked, now, start, end) ==
            if WindowOverflows(now, start, end) then None else Some(Vested(locked, now, start, end))
  {
    if start <= now < end && end - start <= I64_MAX {
      BoundedProduct(now - start, locked);
      VestedWithin(locked, now, start, end);
    }
  }

  /**
   For a leaf whose total fits u64, the API's quote at 50 percent is the on-chain payout of both
   parts at that time: 0 before the start, the whole total from the end on; it panics exactly on the
   over-long window in which the chain fails too.
   */
  lemma QuoteIsSchedule(unlocked: u64, locked: u64, now: i64, start: i64, end: i64)
    requires unlocked + locked <= U64_MAX && start < end
    ensures Quote(unlocked, locked, now, start, end, 50) ==
            if WindowOverflows(now, start, end) then None
            else Some(Released(unlocked, now, start, end) + Vested(locked, now, start, end))
    ensures now < start ==> Quote(unlocked, locked, now, start, end, 50) == Some(0)
    ensures now >= end ==> Quote(unlocked, locked, now, start, end, 50) == Some(unlocked + locked)
  {
    QuoteUnlockedExact(unlocked, now, start, end);
    QuoteLockedExact(locked, now, start, end);
    ReleasedMonotone(unlocked, now, now, start, end);
    VestedWithin(locked, now, start, end);
  }

  /** Quotes never fall as time passes and never exceed the leaf's total. */
  lemma QuoteMonotone(unlocked: u64, locked: u64, t: i64, now: i64, start: i64, end: i64)
    requires unlocked + locked <= U64_MAX && start < end && end - start <= I64_MAX && t <= now
    ensures Quote(unlocked, locked, t, start, end, 50).Some? && Quote(unlocked, locked, now, start, end, 50).Some?
    ensures Quote(unlocked, locked, t, start, end, 50).value
         <= Quote(unlocked, locked, now, start, end, 50).value <= unlocked + locked
  {
    QuoteIsSchedule(unlocked, locked, t, start, end);
    QuoteIsSchedule(unlocked, locked, now, start, end);
    ReleasedMonotone(unlocked, t, now, start, end);
    VestedMonotone(locked, t, now, start, end);
    VestedWithin(locked, now, start, end);
  }
}
