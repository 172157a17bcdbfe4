/** The API's claim-status cache (api/src/cache.rs): its update rule against the history of the chain. */
module Cache {
  import opened Bytes
  import opened Distributor
  import opened Runs

  datatype DataAndSlot = DataAndSlot(data: ClaimStatus, slot: u64)

  /** One claimant's entry after one message: equal data is skipped, older slots are dropped, slot 0 marks a poll. */
  function Updated(entry: Option<DataAndSlot>, msg: DataAndSlot): DataAndSlot {
    match entry
    case None => msg
    case Some(e) =>
      if e.data == msg.data then e
      else if e.slot <= msg.slot || (msg.slot == 0 && e.data != msg.data) then msg
      else e
  }

  function Received(entry: Option<DataAndSlot>, msgs: seq<DataAndSlot>): Option<DataAndSlot> {
    if msgs == [] then entry
    else Some(Updated(Received(entry, msgs[..|msgs| - 1]), msgs[|msgs| - 1]))
  }

  // ----- Histories -----

  /** What the chain holds for a claimant at each slot. */
  type History = nat -> Option<ClaimStatus>

  /** A value that comes back was there all along. */
  ghost predicate NeverReturns(chain: History) {
    forall a: nat, b: nat, k: nat :: a <= k <= b && chain(a) == chain(b) ==> chain(k) == chain(a)
  }

  /** What the API observes of a claimant: a status, the slot it was read at, and whether a poll read it. */
  datatype Observation = Observation(data: ClaimStatus, at: u64, polled: bool)
  {
    /** A poll's message carries slot 0, an update's the slot it was read at. */
    function Message(): DataAndSlot {
      DataAndSlot(data, if polled then 0 else at)
    }
  }

  /** The observation tells what the chain held at its slot. */
  predicate Truthful(chain: History, o: Observation) {
    chain(o.at) == Some(o.data) && (o.polled || o.at > 0)
  }

  predicate AllTruthful(chain: History, obs: seq<Observation>) {
    forall i :: 0 <= i < |obs| ==> Truthful(chain, obs[i])
  }

  /** What the update task receives for some observations. */
  function Messages(obs: seq<Observation>): seq<DataAndSlot> {
    seq(|obs|, i requires 0 <= i < |obs| => obs[i].Message())
  }

  /** The entry after some observations, received in this order from empty. */
  function Shown(obs: seq<Observation>): (r: Option<DataAndSlot>)
    ensures r.Some? <==> obs != []
    ensures obs != [] ==> r == Some(Updated(Shown(obs[..|obs| - 1]), obs[|obs| - 1].Message()))
    decreases |obs|
  {
    assert obs != [] ==> Messages(obs)[..|obs| - 1] == Messages(obs[..|obs| - 1]);
    Received(None, Messages(obs))
  }

  /** The highest slot observed. */
  function Newest(obs: seq<Observation>): nat {
    if obs == [] then 0
    else
      var m, o := Newest(obs[..|obs| - 1]), obs[|obs| - 1];
      if o.at > m then o.at else m
  }

  /** The entry shows what the chain held at the highest slot observed. */
  predicate Agrees(chain: History, obs: seq<Observation>) {
    obs == [] || chain(Newest(obs)) == Some(Shown(obs).value.data)
  }

  /** It did so after every observation on the way. */
  predicate AlwaysAgrees(chain: History, obs: seq<Observation>) {
    obs != [] ==> AlwaysAgrees(chain, obs[..|obs| - 1]) && Agrees(chain, obs)
  }

  // ----- Which observation the entry comes from -----

  /** A differing observation takes over from another one unless both are updates and it is the older one. */
  predicate TakesOver(o: Observation, held: Observation) {
    o.data != held.data && (o.polled || held.polled || held.at <= o.at)
  }

  /** The observation since which the shown status has not changed. */
  function Holder(obs: seq<Observation>): (i: nat)
    requires obs != []
    ensures i < |obs|
  {
    if |obs| == 1 then 0
    else
      var held, o := Holder(obs[..|obs| - 1]), obs[|obs| - 1];
      if TakesOver(o, obs[held]) then |obs| - 1 else held
  }

  /** Updates come from a slot of their own; slot 0 is a poll's. */
  predicate Dated(obs: seq<Observation>) {
    forall i :: 0 <= i < |obs| ==> obs[i].polled || obs[i].at > 0
  }

  /** The entry is that observation's message: its status, and its slot, or 0 if it was a poll. */
  lemma {:induction false} ShownIsHeld(obs: seq<Observation>)
    requires obs != [] && Dated(obs)
    ensures Shown(obs) == Some(obs[Holder(obs)].Message())
  {
    var init := obs[..|obs| - 1];
    if init == [] {
      assert obs == [obs[0]];
    } else {
      ShownIsHeld(init);
    }
  }

  lemma HolderSnoc(obs: seq<Observation>, o: Observation)
    requires obs != []
    ensures Holder(obs + [o]) == if TakesOver(o, obs[Holder(obs)]) then |obs| else Holder(obs)
  {
    assert (obs + [o])[..|obs|] == obs;
  }

  /** An observation that says the same, or an update from an older slot, does not take over from an update. */
  predicate LeavesAlone(o: Observation, held: Observation) {
    o.data == held.data || (!o.polled && o.at < held.at)
  }

  /**
   A status set by an update stands through any number of polls that see the same and of updates from
   older slots, in any order.
   */
  lemma SettledStatusStands(obs: seq<Observation>, more: seq<Observation>)
    requires obs != [] && Dated(obs + more) && !obs[Holder(obs)].polled
    requires forall i :: 0 <= i < |more| ==> LeavesAlone(more[i], obs[Holder(obs)])
    ensures Holder(obs + more) == Holder(obs) && Shown(obs + more) == Shown(obs)
  {
    HolderStands(obs, more);
    ShownIsHeld(obs + more);
    assert Dated(obs) by {
      assert forall i :: 0 <= i < |obs| ==> obs[i] == (obs + more)[i];
    }
    ShownIsHeld(obs);
  }

  lemma {:induction false} HolderStands(obs: seq<Observation>, more: seq<Observation>)
    requires obs != [] && !obs[Holder(obs)].polled
    requires forall i :: 0 <= i < |more| ==> LeavesAlone(more[i], obs[Holder(obs)])
    ensures Holder(obs + more) == Holder(obs)
    decreases |more|
  {
    if more == [] {
      assert obs + more == obs;
    } else {
      var init, o := more[..|more| - 1], more[|more| - 1];
      HolderStands(obs, init);
      HolderSnoc(obs + init, o);
      assert obs + more == obs + init + [o];
    }
  }

  // ----- Exactly which observations are harmless -----

  /** The first of the observations that saw this status. */
  function FirstWith(obs: seq<Observation>, data: ClaimStatus): (i: nat)
    ensures i <= |obs| && forall k :: 0 <= k < i ==> obs[k].data != data
    ensures i < |obs| ==> obs[i].data == data
  {
    if obs == [] then 0
    else
      var i := FirstWith(obs[..|obs| - 1], data);
      if i < |obs| - 1 || obs[|obs| - 1].data == data then i else |obs|
  }

  /**
   An observation that cannot set back an entry in agreement with the chain: it is not older than all
   before it, it sees what the newest of them saw, or it is an update and an update was the first to see
   that.
   */
  predicate Harmless(chain: History, before: seq<Observation>, o: Observation) {
    var newest := Newest(before);
    || newest <= o.at
    || chain(newest) == Some(o.data)
    || (!o.polled && chain(newest).Some?
        && var i := FirstWith(before, chain(newest).value); i < |before| && !before[i].polled)
  }

  predicate AllHarmless(chain: History, obs: seq<Observation>) {
    forall i :: 0 < i < |obs| ==> Harmless(chain, obs[..i], obs[i])
  }

  lemma AllHarmlessSnoc(chain: History, obs: seq<Observation>)
    requires |obs| > 1
    ensures var init := obs[..|obs| - 1];
      AllHarmless(chain, obs) <==> AllHarmless(chain, init) && Harmless(chain, init, obs[|obs| - 1])
  {
    var init := obs[..|obs| - 1];
    assert forall i :: 0 < i < |init| ==> init[..i] == obs[..i] && init[i] == obs[i];
  }

  /** The entry is what the chain held at slot w, and its slot is w unless a poll hid it. */
  ghost predicate ReadAt(chain: History, e: DataAndSlot, w: nat) {
    chain(w) == Some(e.data) && (e.slot == w || e.slot == 0)
  }

  lemma {:induction false} NewestIsObserved(obs: seq<Observation>) returns (i: nat)
    requires obs != []
    ensures i < |obs| && obs[i].at == Newest(obs)
    ensures forall k :: 0 <= k < |obs| ==> obs[k].at <= Newest(obs)
  {
    var init := obs[..|obs| - 1];
    if init == [] {
      i := 0;
    } else {
      i := NewestIsObserved(init);
      if obs[|obs| - 1].at > Newest(init) {
        i := |obs| - 1;
      }
    }
  }

  /** Whatever arrives in whatever order, the entry is a value the chain really held, at an observed slot. */
  lemma {:induction false} ShownWasObserved(chain: History, obs: seq<Observation>) returns (w: nat)
    requires obs != [] && AllTruthful(chain, obs)
    ensures w <= Newest(obs) && ReadAt(chain, Shown(obs).value, w)
    ensures exists i :: 0 <= i < |obs| && obs[i].at == w && obs[i].data == Shown(obs).value.data
  {
    var init, o := obs[..|obs| - 1], obs[|obs| - 1];
    assert o == obs[|obs| - 1];
    w := o.at;
    if init != [] {
      var v := ShownWasObserved(chain, init);
      if Shown(obs) == Shown(init) {
        w := v;
        var i :| 0 <= i < |init| && init[i].at == v && init[i].data == Shown(init).value.data;
        assert obs[i].at == w;
      }
    }
  }

  /** The same of one entry: does it say the same, is it new enough, or do both carry a slot. */
  predicate HarmlessTo(e: DataAndSlot, newest: nat, o: Observation) {
    o.data == e.data || newest <= o.at || (!o.polled && e.slot > 0)
  }

  /** From an entry in agreement, one more observation leaves it in agreement exactly when it is harmless. */
  lemma ObservationAgreesIff(chain: History, e: DataAndSlot, w: nat, newest: nat, o: Observation)
    requires NeverReturns(chain) && Truthful(chain, o)
    requires ReadAt(chain, e, w) && w <= newest && chain(newest) == Some(e.data)
    ensures chain(if o.at > newest then o.at else newest) == Some(Updated(Some(e), o.Message()).data)
       <==> HarmlessTo(e, newest, o)
  {
    if w <= o.at <= newest {
      assert chain(o.at) == chain(w);
    }
  }

  /** While the cache agrees with the chain, its entry is from the first observation that saw the status. */
  lemma {:induction false} AgreeingIsFirstSeen(chain: History, obs: seq<Observation>)
    requires obs != [] && NeverReturns(chain) && AllTruthful(chain, obs) && AlwaysAgrees(chain, obs)
    ensures var i := FirstWith(obs, Shown(obs).value.data); i < |obs| && Shown(obs).value == obs[i].Message()
  {
    var init, o := obs[..|obs| - 1], obs[|obs| - 1];
    if init == [] {
      assert obs == [obs[0]];
    } else {
      AgreeingIsFirstSeen(chain, init);
      if Shown(obs) != Shown(init) {
        NewStatusIsUnseen(chain, init, o);
      }
    }
  }

  /** A status that the chain held only after all of these was seen by none of them. */
  lemma NewStatusIsUnseen(chain: History, before: seq<Observation>, o: Observation)
    requires before != [] && NeverReturns(chain) && AllTruthful(chain, before) && Truthful(chain, o)
    requires chain(Newest(before)) != Some(o.data)
    requires chain(if o.at > Newest(before) then o.at else Newest(before)) == Some(o.data)
    ensures FirstWith(before, o.data) == |before|
  {
    var _ := NewestIsObserved(before);
  }

  /** Harmless among the observations is harmless to the entry they left, if it agrees with the chain. */
  lemma HarmlessToEntry(chain: History, before: seq<Observation>, o: Observation)
    requires before != [] && NeverReturns(chain) && AllTruthful(chain, before) && AlwaysAgrees(chain, before)
    ensures Harmless(chain, before, o) <==> HarmlessTo(Shown(before).value, Newest(before), o)
  {
    AgreeingIsFirstSeen(chain, before);
    var i := FirstWith(before, Shown(before).value.data);
    assert Truthful(chain, before[i]);
  }

  /**
   Over every interleaving of polls and updates, in any order: the cache agrees with the chain all the
   way exactly when every observation is harmless.
   */
  lemma {:induction false} CacheAgreesIff(chain: History, obs: seq<Observation>)
    requires NeverReturns(chain) && AllTruthful(chain, obs)
    ensures AlwaysAgrees(chain, obs) <==> AllHarmless(chain, obs)
  {
    if obs != [] {
      var init, o := obs[..|obs| - 1], obs[|obs| - 1];
      CacheAgreesIff(chain, init);
      if init != [] {
        AllHarmlessSnoc(chain, obs);
        if AlwaysAgrees(chain, init) {
          var w := ShownWasObserved(chain, init);
          ObservationAgreesIff(chain, Shown(init).value, w, Newest(init), o);
          HarmlessToEntry(chain, init, o);
        }
      }
    }
  }

  /** An observation newer than all before it puts the cache right, whatever went wrong earlier. */
  lemma NewestAgrees(chain: History, obs: seq<Observation>)
    requires AllTruthful(chain, obs) && obs != []
    requires Newest(obs[..|obs| - 1]) < obs[|obs| - 1].at
    ensures Agrees(chain, obs)
  {
    var init := obs[..|obs| - 1];
    if init != [] {
      var w := ShownWasObserved(chain, init);
    }
  }

  // ----- Two special cases -----

  predicate NoPolls(obs: seq<Observation>) {
    forall i :: 0 <= i < |obs| ==> !obs[i].polled
  }

  /** Updates alone, in any order, are always harmless, although equal data does not raise the stored slot. */
  lemma UpdatesAreHarmless(chain: History, obs: seq<Observation>)
    requires AllTruthful(chain, obs) && NoPolls(obs)
    ensures AllHarmless(chain, obs)
  {
    forall i | 0 < i < |obs| ensures Harmless(chain, obs[..i], obs[i]) {
      var k := NewestIsObserved(obs[..i]);
      assert Truthful(chain, obs[k]) && obs[..i][k] == obs[k];
    }
  }

  /** From empty, any sequence of updates in any order keeps the cache in agreement. */
  lemma CacheAgreesFromEmpty(chain: History, obs: seq<Observation>)
    requires NeverReturns(chain) && AllTruthful(chain, obs) && NoPolls(obs)
    ensures AlwaysAgrees(chain, obs)
  {
    UpdatesAreHarmless(chain, obs);
    CacheAgreesIff(chain, obs);
  }

  /** While what the poll saw is the newest, an update must be from the poll's slot on or say the same. */
  predicate NotOlderThanPoll(chain: History, before: seq<Observation>, poll: Observation, o: Observation) {
    chain(Newest(before)) == Some(poll.data) ==> poll.at <= o.at || o.data == poll.data
  }

  predicate NoneOlderThanPoll(chain: History, obs: seq<Observation>) {
    forall i :: 0 < i < |obs| ==> NotOlderThanPoll(chain, obs[..i], obs[0], obs[i])
  }

  predicate PollThenUpdates(obs: seq<Observation>) {
    obs != [] && obs[0].polled && forall i :: 0 < i < |obs| ==> !obs[i].polled
  }

  lemma HarmlessAfterPoll(chain: History, before: seq<Observation>, o: Observation)
    requires NeverReturns(chain) && AllTruthful(chain, before) && Truthful(chain, o) && !o.polled
    requires PollThenUpdates(before)
    ensures Harmless(chain, before, o) <==> NotOlderThanPoll(chain, before, before[0], o)
  {
    var k := NewestIsObserved(before);
    assert Truthful(chain, before[k]) && Truthful(chain, before[0]);
    var i := FirstWith(before, before[k].data);
    if before[k].data == before[0].data && before[0].at <= o.at <= Newest(before) {
      assert chain(o.at) == chain(before[0].at);
    }
  }

  /**
   From a poll followed by updates, the cache agrees all the way exactly when no update older than the
   poll gets in.
   */
  lemma CacheAgreesFromPoll(chain: History, obs: seq<Observation>)
    requires NeverReturns(chain) && AllTruthful(chain, obs) && PollThenUpdates(obs)
    ensures AlwaysAgrees(chain, obs) <==> NoneOlderThanPoll(chain, obs)
  {
    CacheAgreesIff(chain, obs);
    forall i | 0 < i < |obs|
      ensures Harmless(chain, obs[..i], obs[i]) <==> NotOlderThanPoll(chain, obs[..i], obs[0], obs[i])
    {
      HarmlessAtAfterPoll(chain, obs, i);
    }
  }

  lemma HarmlessAtAfterPoll(chain: History, obs: seq<Observation>, i: nat)
    requires NeverReturns(chain) && AllTruthful(chain, obs) && PollThenUpdates(obs) && 0 < i < |obs|
    ensures Harmless(chain, obs[..i], obs[i]) <==> NotOlderThanPoll(chain, obs[..i], obs[0], obs[i])
  {
    var before := obs[..i];
    assert forall k :: 0 <= k < i ==> before[k] == obs[k];
    HarmlessAfterPoll(chain, before, obs[i]);
  }

  /** A poll agrees exactly when it is not older than all seen so far, or says the same. */
  lemma PollAgreesIff(chain: History, e: DataAndSlot, w: nat, newest: nat, data: ClaimStatus, p: u64)
    requires NeverReturns(chain) && chain(p) == Some(data)
    requires ReadAt(chain, e, w) && w <= newest && chain(newest) == Some(e.data)
    ensures chain(if p > newest then p else newest) == Some(Updated(Some(e), DataAndSlot(data, 0)).data)
       <==> newest <= p || data == e.data
  {
    ObservationAgreesIff(chain, e, w, newest, Observation(data, p, true));
  }

  /** An update on a polled entry agrees exactly when it is not older than the poll, or says the same. */
  lemma UpdateAfterPollAgreesIff(chain: History, e: DataAndSlot, p: u64, o: Observation)
    requires NeverReturns(chain) && Truthful(chain, o) && !o.polled
    requires e.slot == 0 && chain(p) == Some(e.data)
    ensures chain(if o.at > p then o.at else p) == Some(Updated(Some(e), o.Message()).data)
       <==> p <= o.at || o.data == e.data
  {
    ObservationAgreesIff(chain, e, p, p, o);
  }

  // ----- Concrete failures -----

  /** A status that was withdrawn from between slots 1 and 2. */
  function WithdrawnAtTwo(status: ClaimStatus): History
    requires status.lockedAmountWithdrawn < U64_MAX
  {
    (slot: nat) => Some(if slot <= 1 then status else Later(status))
  }

  function Later(status: ClaimStatus): ClaimStatus
    requires status.lockedAmountWithdrawn < U64_MAX
  {
    status.(lockedAmountWithdrawn := status.lockedAmountWithdrawn + 1)
  }

  lemma ShownTwo(a: Observation, b: Observation)
    ensures Shown([a, b]) == Some(Updated(Some(a.Message()), b.Message()))
    ensures Newest([a, b]) == if b.at > a.at then b.at else a.at
  {
    assert [a, b][..1] == [a] && [a][..0] == [];
    assert Shown([a]) == Some(a.Message()) && Newest([a]) == a.at;
  }

  /** Cached from an update at slot 2, the status is set back by a poll that saw slot 1. */
  lemma StalePollSetsBack(status: ClaimStatus)
    requires status.lockedAmountWithdrawn < U64_MAX
    ensures var chain, obs := WithdrawnAtTwo(status),
        [Observation(Later(status), 2, false), Observation(status, 1, true)];
      && NeverReturns(chain) && AllTruthful(chain, obs)
      && Shown(obs) == Some(DataAndSlot(status, 0)) && !Agrees(chain, obs)
  {
    ShownTwo(Observation(Later(status), 2, false), Observation(status, 1, true));
  }

  /** Cached from a fresh poll at slot 2, which stores slot 0, the status is set back by a late update from slot 1. */
  lemma LateUpdateSetsBackPoll(status: ClaimStatus)
    requires status.lockedAmountWithdrawn < U64_MAX
    ensures var chain, obs := WithdrawnAtTwo(status),
        [Observation(Later(status), 2, true), Observation(status, 1, false)];
      && NeverReturns(chain) && AllTruthful(chain, obs)
      && Shown(obs) == Some(DataAndSlot(status, 1)) && !Agrees(chain, obs)
  {
    ShownTwo(Observation(Later(status), 2, true), Observation(status, 1, false));
  }

  // ----- The chain's histories qualify -----

  /** The run's events up to and including a slot. */
  function UpTo(run: Run, slot: nat): (r: Run) {
    if run == [] then []
    else if run[|run| - 1].clk.slot <= slot then run
    else UpTo(run[..|run| - 1], slot)
  }

  /** A claimant's status at a slot of a run. */
  ghost function StatusAt(h: HashFn, s: State, run: Run, c: Pubkey): History {
    (slot: nat) => var t := After(h, s, UpTo(run, slot)); if c in t.statuses then Some(t.statuses[c]) else None
  }

  lemma {:induction false} UpToIsPrefix(run: Run, slot: nat)
    ensures UpTo(run, slot) <= run
  {
    if run != [] && run[|run| - 1].clk.slot > slot {
      UpToIsPrefix(run[..|run| - 1], slot);
    }
  }

  lemma {:induction false} UpToMonotone(run: Run, a: nat, b: nat)
    requires a <= b
    ensures UpTo(run, a) <= UpTo(run, b)
  {
    if run != [] {
      if run[|run| - 1].clk.slot <= b {
        UpToIsPrefix(run, a);
      } else {
        UpToMonotone(run[..|run| - 1], a, b);
      }
    }
  }

  lemma LaterStatus(h: HashFn, s: State, run: Run, c: Pubkey, a: nat, b: nat)
    requires a <= b
    ensures var x, y := StatusAt(h, s, run, c)(a), StatusAt(h, s, run, c)(b);
      x.Some? ==> y.Some? && y.value == x.value.(lockedAmountWithdrawn := y.value.lockedAmountWithdrawn)
                  && x.value.lockedAmountWithdrawn <= y.value.lockedAmountWithdrawn
  {
    var p, q := UpTo(run, a), UpTo(run, b);
    UpToMonotone(run, a, b);
    assert q == p + q[|p|..];
    AfterConcat(h, s, p, q[|p|..]);
    StatusesGrow(h, After(h, s, p), q[|p|..]);
  }

  lemma SameInBetween(h: HashFn, s: State, run: Run, c: Pubkey, a: nat, k: nat, b: nat)
    requires a <= k <= b && StatusAt(h, s, run, c)(a) == StatusAt(h, s, run, c)(b)
    ensures StatusAt(h, s, run, c)(k) == StatusAt(h, s, run, c)(a)
  {
    LaterStatus(h, s, run, c, a, k);
    LaterStatus(h, s, run, c, k, b);
  }

  /** Claim statuses only grow, so a claimant's history on the chain never returns to an earlier value. */
  lemma ChainNeverReturns(h: HashFn, s: State, run: Run, c: Pubkey)
    ensures NeverReturns(StatusAt(h, s, run, c))
  {
    var chain := StatusAt(h, s, run, c);
    forall a: nat, b: nat, k: nat | a <= k <= b && chain(a) == chain(b) ensures chain(k) == chain(a) {
      SameInBetween(h, s, run, c, a, k, b);
    }
  }

  /**
   The cache, fed truthful observations of a run by polls and updates in any order, agrees with the
   chain all the way exactly when every observation is harmless, and always when only updates come in.
   */
  lemma CacheAgreesWithChain(h: HashFn, s: State, run: Run, c: Pubkey, obs: seq<Observation>)
    requires AllTruthful(StatusAt(h, s, run, c), obs)
    ensures AlwaysAgrees(StatusAt(h, s, run, c), obs) <==> AllHarmless(StatusAt(h, s, run, c), obs)
    ensures NoPolls(obs) ==> AlwaysAgrees(StatusAt(h, s, run, c), obs)
  {
    var chain := StatusAt(h, s, run, c);
    ChainNeverReturns(h, s, run, c);
    CacheAgreesIff(chain, obs);
    if NoPolls(obs) {
      CacheAgreesFromEmpty(chain, obs);
    }
  }

  // ----- The cache -----

  function MessagesOf(msgs: seq<DataAndSlot>, c: Pubkey): seq<DataAndSlot> {
    if msgs == [] then []
    else
      var init, m := MessagesOf(msgs[..|msgs| - 1], c), msgs[|msgs| - 1];
      if m.data.claimant == c then init + [m] else init
  }

  /** The observations of one claimant, in their order. */
  function ObservationsOf(obs: seq<Observation>, c: Pubkey): seq<Observation> {
    if obs == [] then []
    else
      var init, o := ObservationsOf(obs[..|obs| - 1], c), obs[|obs| - 1];
      if o.data.claimant == c then init + [o] else init
  }

  /** Every observation tells what the run's chain held for its claimant at its slot. */
  ghost predicate ObservedOn(h: HashFn, s: State, run: Run, obs: seq<Observation>) {
    forall i :: 0 <= i < |obs| ==> Truthful(StatusAt(h, s, run, obs[i].data.claimant), obs[i])
  }

  /** The chain held this entry at a slot at which the claimant was observed. */
  ghost predicate HeldWhenObserved(h: HashFn, s: State, run: Run, c: Pubkey, obs: seq<Observation>, e: DataAndSlot) {
    exists i :: 0 <= i < |obs| && StatusAt(h, s, run, c)(obs[i].at) == Some(e.data)
  }

  /** The entry is the newest observed status, if all observations are harmless or none is a poll. */
  ghost predicate ShowsNewest(h: HashFn, s: State, run: Run, c: Pubkey, obs: seq<Observation>, e: DataAndSlot) {
    AllHarmless(StatusAt(h, s, run, c), obs) || NoPolls(obs) ==> StatusAt(h, s, run, c)(Newest(obs)) == Some(e.data)
  }

  lemma {:induction false} MessagesOfObservations(obs: seq<Observation>, c: Pubkey)
    ensures MessagesOf(Messages(obs), c) == Messages(ObservationsOf(obs, c))
  {
    if obs != [] {
      MessagesOfObservations(obs[..|obs| - 1], c);
      assert Messages(obs)[..|obs| - 1] == Messages(obs[..|obs| - 1]);
    }
  }

  lemma {:induction false} ObservationsAreTruthful(h: HashFn, s: State, run: Run, c: Pubkey, obs: seq<Observation>)
    requires ObservedOn(h, s, run, obs)
    ensures AllTruthful(StatusAt(h, s, run, c), ObservationsOf(obs, c))
  {
    if obs != [] {
      ObservationsAreTruthful(h, s, run, c, obs[..|obs| - 1]);
      assert Truthful(StatusAt(h, s, run, obs[|obs| - 1].data.claimant), obs[|obs| - 1]);
    }
  }

  /** One claimant's entry against the chain. */
  lemma EntryFollowsChain(h: HashFn, s: State, run: Run, c: Pubkey, obs: seq<Observation>)
    requires ObservedOn(h, s, run, obs) && ObservationsOf(obs, c) != []
    ensures var mine := ObservationsOf(obs, c);
      && Shown(mine).value == mine[Holder(mine)].Message()
      && HeldWhenObserved(h, s, run, c, mine, Shown(mine).value)
      && ShowsNewest(h, s, run, c, mine, Shown(mine).value)
  {
    var chain, mine := StatusAt(h, s, run, c), ObservationsOf(obs, c);
    ObservationsAreTruthful(h, s, run, c, obs);
    assert Dated(mine);
    ShownIsHeld(mine);
    CacheAgreesWithChain(h, s, run, c, mine);
    var w := ShownWasObserved(chain, mine);
    var i :| 0 <= i < |mine| && mine[i].at == w && mine[i].data == Shown(mine).value.data;
    assert chain(mine[i].at) == Some(Shown(mine).value.data);
  }

  class ClaimCache {
    var entries: map<Pubkey, DataAndSlot>

    ghost function Entry(c: Pubkey): Option<DataAndSlot>
      reads this
    {
      if c in entries then Some(entries[c]) else None
    }

    constructor ()
      ensures entries == map[]
    {
      entries := map[];
    }

    /** The body of the message loop. */
    method Receive(msg: DataAndSlot)
      modifies this
      ensures entries == old(entries)[msg.data.claimant := Updated(old(Entry(msg.data.claimant)), msg)]
    {
      var c := msg.data.claimant;
      if c in entries {
        var e := entries[c];
        if e.data == msg.data {
          assert entries == entries[c := e];
          return;
        }
        if e.slot <= msg.slot || (msg.slot == 0 && e.data != msg.data) {
          entries := entries[c := msg];
        } else {
          assert entries == entries[c := e];
        }
      } else {
        entries := entries[c := msg];
      }
    }

    /** A batch of messages: each claimant's entry has received that claimant's messages in order. */
    method ReceiveAll(msgs: seq<DataAndSlot>)
      modifies this
      ensures forall c: Pubkey :: Entry(c) == Received(old(Entry(c)), MessagesOf(msgs, c))
    {
      for i := 0 to |msgs|
        invariant forall c: Pubkey :: Entry(c) == Received(old(Entry(c)), MessagesOf(msgs[..i], c))
      {
        assert msgs[..i + 1][..i] == msgs[..i];
        ghost var c := msgs[i].data.claimant;
        ghost var mine := MessagesOf(msgs[..i], c);
        assert (mine + [msgs[i]])[..|mine|] == mine;
        Receive(msgs[i]);
      }
      assert msgs[..|msgs|] == msgs;
    }

    /**
     A cache started empty, fed what polls and updates truthfully observe of a run, in any order and for
     all claimants mixed. Every entry is the message of the observation since which the claimant's shown
     status has not changed, a status that the chain held when it was observed. It is the newest observed
     one for every claimant whose observations are harmless, polls or not, and for every claimant without
     polls.
     */
    method Follow(msgs: seq<DataAndSlot>, ghost obs: seq<Observation>, ghost h: HashFn, ghost s: State, ghost run: Run)
      requires entries == map[] && msgs == Messages(obs)
      requires ObservedOn(h, s, run, obs)
      modifies this
      ensures forall c: Pubkey :: c in entries <==> ObservationsOf(obs, c) != []
      ensures forall c: Pubkey :: c in entries ==>
        var mine := ObservationsOf(obs, c); entries[c] == mine[Holder(mine)].Message()
      ensures forall c: Pubkey :: c in entries ==> HeldWhenObserved(h, s, run, c, ObservationsOf(obs, c), entries[c])
      ensures forall c: Pubkey :: c in entries ==> ShowsNewest(h, s, run, c, ObservationsOf(obs, c), entries[c])
    {
      ReceiveAll(msgs);
      forall c: Pubkey
        ensures Entry(c) == Shown(ObservationsOf(obs, c))
        ensures c in entries ==> var mine := ObservationsOf(obs, c); entries[c] == mine[Holder(mine)].Message()
        ensures c in entries ==> HeldWhenObserved(h, s, run, c, ObservationsOf(obs, c), entries[c])
        ensures c in entries ==> ShowsNewest(h, s, run, c, ObservationsOf(obs, c), entries[c])
      {
        MessagesOfObservations(obs, c);
        if ObservationsOf(obs, c) != [] {
          EntryFollowsChain(h, s, run, c, obs);
        }
      }
    }
  }
}
