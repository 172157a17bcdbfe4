/** Topping up vaults (cli/src/bin/instructions/process_fund_all.rs). */
module Funding {
  import opened Bytes
  import opened Distributor
  import opened Invariants
  import opened Runs

  /** What one pass reads for one tree file: the file's cap, and the distributor's and vault's accounts. */
  datatype Target = Target(maxTotalClaim: u64, clawedBack: bool, claimed: u64, vault: u64)

  /** The amount to transfer; None stands for the panic when more was claimed than the file allows. */
  function FundAmount(t: Target): Option<u64> {
    if t.clawedBack then Some(0)
    else if t.claimed > t.maxTotalClaim then None
    else if t.vault >= t.maxTotalClaim - t.claimed then Some(0)
    else Some(t.maxTotalClaim - t.claimed - t.vault)
  }

  /** A vault that covers all that is still claimable, and no more than it must. */
  function Topped(t: Target): Target {
    if t.clawedBack || t.claimed > t.maxTotalClaim || t.vault >= t.maxTotalClaim - t.claimed then t
    else t.(vault := t.maxTotalClaim - t.claimed)
  }

  function Need(ts: seq<Target>): nat {
    if ts == [] then 0
    else Need(ts[..|ts| - 1]) + Topped(ts[|ts| - 1]).vault - ts[|ts| - 1].vault
  }

  predicate Fundable(ts: seq<Target>) {
    forall i :: 0 <= i < |ts| ==> FundAmount(ts[i]).Some?
  }

  lemma {:induction false} NeedMonotone(ts: seq<Target>, k: nat)
    requires k <= |ts|
    ensures Need(ts[..k]) <= Need(ts)
  {
    if k < |ts| {
      NeedMonotone(ts[..|ts| - 1], k);
      assert ts[..|ts| - 1][..k] == ts[..k];
    } else {
      assert ts[..k] == ts;
    }
  }

  /**
   One pass over the tree files. Transfers land one by one, so a pass that stops half way keeps the
   vaults it has funded; it completes exactly when no file is exceeded and the source holds enough.
   */
  method FundAll(vaults: array<Target>, source: u64) returns (ok: bool, rest: u64, done: nat)
    modifies vaults
    ensures ok <==> Fundable(old(vaults[..])) && Need(old(vaults[..])) <= source
    ensures done <= vaults.Length && (ok ==> done == vaults.Length)
    ensures forall i :: 0 <= i < done ==> vaults[i] == Topped(old(vaults[i]))
    ensures forall i :: done <= i < vaults.Length ==> vaults[i] == old(vaults[i])
    ensures rest == source - Need(old(vaults[..done]))
  {
    ghost var before := vaults[..];
    rest, done := source, 0;
    while done < vaults.Length
      invariant done <= vaults.Length && |before| == vaults.Length
      invariant forall i :: 0 <= i < done ==> FundAmount(before[i]).Some? && vaults[i] == Topped(before[i])
      invariant forall i :: done <= i < vaults.Length ==> vaults[i] == before[i]
      invariant rest == source - Need(before[..done])
    {
      var t := vaults[done];
      var amount := FundAmount(t);
      assert before[done] == t;
      assert before[..done + 1][..done] == before[..done];
      if amount.None? {
        return false, rest, done;
      }
      if amount.value > rest {
        NeedMonotone(before, done + 1);
        return false, rest, done;
      }
      rest := rest - amount.value;
      vaults[done] := t.(vault := t.vault + amount.value);
      done := done + 1;
    }
    assert before[..done] == before;
    ok := true;
  }

  /** A funded vault needs nothing more. */
  lemma {:induction false} SecondPassIsFree(ts: seq<Target>)
    ensures Need(seq(|ts|, i requires 0 <= i < |ts| => Topped(ts[i]))) == 0
  {
    var us := seq(|ts|, i requires 0 <= i < |ts| => Topped(ts[i]));
    if ts != [] {
      var init := ts[..|ts| - 1];
      SecondPassIsFree(init);
      assert us[..|us| - 1] == seq(|init|, i requires 0 <= i < |init| => Topped(init[i]));
    }
  }

  // ----- On the distributor's state -----

  /** What a pass reads: the cap from the tree file, everything else from the chain. */
  function Read(fileCap: u64, s: State): Target {
    Target(fileCap, s.d.clawedBack, s.d.totalAmountClaimed, s.Vault())
  }

  function ZeroOr(x: int): nat {
    if x > 0 then x else 0
  }

  /**
   The amount is the part of the burned tokens that the surplus does not cover; nothing exactly when it
   covers them.
   */
  predicate Refunds(amount: Option<u64>, burned: int, surplus: int) {
    && amount.Some? && amount.value == ZeroOr(burned - surplus)
    && (amount.value == 0 <==> burned <= surplus)
  }

  /**
   A later pass with the file that the distributor was funded from, after any run that did not claw
   back: the checked subtraction succeeds, and the amount is exactly what re-roots have burned since,
   less the surplus and the deposits. Re-roots are the only reason for a transfer.
   */
  lemma SameFileRefundsBurns(h: HashFn, s: State, run: Run)
    requires Inv(s) && !After(h, s, run).d.clawedBack
    ensures Refunds(FundAmount(Read(s.d.maxTotalClaim, After(h, s, run))),
                    BurnedByReRoots(h, s, run), Surplus(s) + Deposits(h, s, run))
  {
    var t := After(h, s, run);
    LaterBooks(h, s, run);
    AmountIsShortfall(s.d.maxTotalClaim, t, BurnedByReRoots(h, s, run), Surplus(s) + Deposits(h, s, run));
  }

  lemma LaterBooks(h: HashFn, s: State, run: Run)
    requires Inv(s) && !After(h, s, run).d.clawedBack
    ensures After(h, s, run).d.totalAmountClaimed <= After(h, s, run).d.maxTotalClaim <= s.d.maxTotalClaim
    ensures BurnedByReRoots(h, s, run) == s.d.maxTotalClaim - After(h, s, run).d.maxTotalClaim
    ensures Surplus(After(h, s, run)) == Surplus(s) + Deposits(h, s, run)
  {
    RunKeepsInv(h, s, run);
    SurplusConserved(h, s, run);
    ReRootsBurnTheCut(h, s, run);
  }

  lemma AmountIsShortfall(fileCap: u64, t: State, burned: int, surplus: int)
    requires !t.d.clawedBack && t.d.totalAmountClaimed <= t.d.maxTotalClaim <= fileCap
    requires burned == fileCap - t.d.maxTotalClaim && surplus == Surplus(t)
    ensures Refunds(FundAmount(Read(fileCap, t)), burned, surplus)
  {
  }

  /**
   With the file of the cap in force, the subtraction succeeds in every reachable state and the amount
   is the shortfall.
   */
  lemma FundingCoversShortfall(h: HashFn, s: State, run: Run)
    requires Inv(s)
    ensures var t := After(h, s, run);
      FundAmount(Read(t.d.maxTotalClaim, t)) == Some(if t.d.clawedBack then 0 else ZeroOr(-Surplus(t)))
  {
    RunKeepsInv(h, s, run);
  }

  /** Funding brings the vault to the larger of its balance and what is still claimable. */
  lemma FundingTopsUp(s: State, signer: Pubkey, source: Pubkey)
    requires Inv(s) && !s.d.clawedBack && Surplus(s) < 0
    requires source in s.tokens && s.CanSign(signer) && s.tokens[source].owner == signer
    requires s.tokens[source].amount >= -Surplus(s)
    ensures -Surplus(s) <= U64_MAX
    ensures var before, r := Read(s.d.maxTotalClaim, s), TransferOwn(s, signer, source, s.d.tokenVault, -Surplus(s));
      && FundAmount(before) == Some(-Surplus(s))
      && r.Ok? && Surplus(r.value) == 0 && Read(s.d.maxTotalClaim, r.value) == Topped(before)
  {
    TransferNeverOverflows(s, source, s.d.tokenVault, -Surplus(s));
  }

  /** Once funded, a later pass with the file of the cap in force transfers nothing, whatever happened in between. */
  lemma FundingIsIdempotent(h: HashFn, s: State, run: Run)
    requires Inv(s) && Surplus(s) >= 0
    ensures FundAmount(Read(After(h, s, run).d.maxTotalClaim, After(h, s, run))) == Some(0)
  {
    RunKeepsInv(h, s, run);
    if !After(h, s, run).d.clawedBack {
      SurplusConserved(h, s, run);
    }
  }
}
