/**
 Runs of the wallet: any sequence of its operations, of deposits by others, and of
 clock ticks. A reverted operation leaves everything as it was. The world also keeps
 running totals of what went in and out, which no operation reads.
 */
module WalletRuns {
  import opened Common
  import opened WalletModel
  import opened WalletBatches

  datatype World = World(
    s: State,
    now: nat,
    deposited: nat,
    redeemed: nat,
    burned: nat,
    withdrawn: nat,
    /** pending amount that withdrawals burned since the epoch started */
    settled: nat,
    /** reserves with which the current epoch opened */
    opening: nat
  )

  datatype Op =
    | Deposit(amount: nat)
    | Tick(elapsed: nat)
    | StartEpochOp
    | WithdrawOp(sender: Address)
    | RedeemOp(to: Address, redeems: seq<RedeemRecord>)
    | BurnOp(to: Address, burns: seq<BurnRecord>)
    | ChallengeOp(challenges: seq<ChallengeRecord>)

  /** The outcome of an operation on the storage; deposits and ticks always happen. */
  function OutcomeOf(cfg: Config, w: World, op: Op): Outcome {
    match op
    case Deposit(amount) =>
      if w.s.balance + amount >= U256_SIZE then Reverted else Done(w.s.(balance := w.s.balance + amount))
    case Tick(_) => Done(w.s)
    case StartEpochOp => StartEpoch(cfg, w.s, w.now)
    case WithdrawOp(sender) => Withdraw(cfg, w.s, w.now, sender)
    case RedeemOp(to, batch) => Redeem(cfg, w.s, to, batch)
    case BurnOp(to, batch) => Burn(cfg, w.s, w.now, to, batch)
    case ChallengeOp(batch) => Challenge(cfg, w.s, w.now, batch)
  }

  function Apply(cfg: Config, w: World, op: Op): World {
    match OutcomeOf(cfg, w, op)
    case Reverted => w
    case Done(t) =>
      match op
      case Deposit(amount) => w.(s := t, deposited := w.deposited + amount)
      case Tick(elapsed) => w.(now := w.now + elapsed)
      case StartEpochOp => w.(s := t, burned := w.burned + w.s.pendingBurnAmount, settled := 0, opening := t.reserves)
      case WithdrawOp(_) =>
        w.(s := t,
           burned := w.burned + w.s.pendingBurnAmount,
           settled := w.settled + w.s.pendingBurnAmount,
           withdrawn := w.withdrawn + (w.s.balance - w.s.pendingBurnAmount))
      case RedeemOp(_, batch) => w.(s := t, redeemed := w.redeemed + cfg.indexValue * |batch|)
      case BurnOp(_, _) => w.(s := t)
      case ChallengeOp(_) => w.(s := t)
  }

  function Run(cfg: Config, w: World, ops: seq<Op>): World
    decreases |ops|
  {
    if ops == [] then w else Run(cfg, Apply(cfg, w, ops[0]), ops[1..])
  }

  /** A run by its first operation. */
  lemma RunStep(cfg: Config, w: World, op: Op, rest: seq<Op>)
    ensures Run(cfg, w, [op] + rest) == Run(cfg, Apply(cfg, w, op), rest)
    ensures Run(cfg, w, [op]) == Apply(cfg, w, op)
  {
    var u := Apply(cfg, w, op);
    assert ([op] + rest)[1..] == rest && [op][1..] == [];
    assert Run(cfg, u, []) == u;
  }

  /** A freshly deployed wallet, at any time. */
  function Deployed(now: nat): World {
    World(State({}, map[], map[], map[], 0, 0, 0, 0, 0), now, 0, 0, 0, 0, 0, 0)
  }

  function LiveEntries(s: State): set<Key> {
    set k | k in s.burnTime && k.epoch == s.currentEpoch
  }

  // ----- the invariant

  /** A stored time is below its epoch's end while the epoch lasts, and past afterwards. */
  ghost predicate EntriesTimed(cfg: Config, w: World) {
    && (forall k :: k in w.s.burnTime ==>
          && k.epoch <= w.s.currentEpoch
          && w.s.burnTime[k] <= cfg.burnBuffer + INV_DISADVANTAGE_BUFFER
          && (k.epoch == w.s.currentEpoch ==>
                w.s.burnTime[k] < w.s.epochExpiresBy && w.s.burnTime[k] < cfg.epochDuration)
          && (k.epoch < w.s.currentEpoch ==> w.s.burnTime[k] < w.now))
    && w.s.epochExpiresBy <= w.now + cfg.epochDuration
  }

  ghost predicate ClaimsApart(w: World) {
    forall k :: k in w.s.claimed ==> TimeOf(w.s, k) == 0 && k.epoch <= w.s.currentEpoch
  }

  /** The pending amount and what was burned of it cover every entry of the epoch. */
  ghost predicate PendingCovers(cfg: Config, w: World) {
    && cfg.indexValue * |LiveEntries(w.s)| <= w.s.pendingBurnAmount + w.settled
    && (w.settled > 0 ==> w.now >= cfg.epochDuration)
  }

  /** With a positive buffer no time is stored as zero, and the cover is exact. */
  ghost predicate PendingExact(cfg: Config, w: World) {
    && BurnMapsAgree(w.s)
    && w.s.pendingBurnAmount + w.settled == cfg.indexValue * |LiveEntries(w.s)|
  }

  ghost predicate MoneyConserved(cfg: Config, w: World) {
    && w.s.balance + w.redeemed + w.burned + w.withdrawn == w.deposited
    && w.redeemed == cfg.indexValue * |w.s.claimed|
    && w.s.balance < U256_SIZE
  }

  ghost predicate Inv(cfg: Config, w: World) {
    && EntriesTimed(cfg, w) && ClaimsApart(w) && PendingCovers(cfg, w) && MoneyConserved(cfg, w)
    && (cfg.burnBuffer > 0 ==> PendingExact(cfg, w))
  }

  // ----- each operation keeps it

  lemma StartEpochKeepsInv(cfg: Config, w: World)
    requires Inv(cfg, w)
    ensures Inv(cfg, Apply(cfg, w, StartEpochOp))
  {
    var v := Apply(cfg, w, StartEpochOp);
    if StartEpoch(cfg, w.s, w.now).Done? {
      assert LiveEntries(v.s) == {};
    }
  }

  lemma WithdrawKeepsInv(cfg: Config, w: World, sender: Address)
    requires Inv(cfg, w)
    ensures Inv(cfg, Apply(cfg, w, WithdrawOp(sender)))
  {
    var v := Apply(cfg, w, WithdrawOp(sender));
    assert v.s.claimed == w.s.claimed && v.s.burnTime == w.s.burnTime;
    assert LiveEntries(v.s) == LiveEntries(w.s);
  }

  lemma FreshClaims(cfg: Config, s: State, to: Address, batch: seq<RedeemRecord>)
    requires RedeemAccepted(cfg, s, to, batch)
    ensures var keys := Elements(RedeemKeys(s.currentEpoch, batch));
            && |keys| == |batch|
            && keys !! s.claimed
            && |s.claimed + keys| == |s.claimed| + |batch|
            && forall k :: k in keys ==> k.epoch == s.currentEpoch && TimeOf(s, k) == 0
  {
    var keys := Elements(RedeemKeys(s.currentEpoch, batch));
    DistinctIffFullSize(RedeemKeys(s.currentEpoch, batch));
    forall k | k in keys ensures !Taken(s, k) {
      var i :| 0 <= i < |batch| && k == Key(batch[i].index, s.currentEpoch);
    }
    DisjointSize(s.claimed, keys);
  }

  lemma RedeemEffect(cfg: Config, w: World, to: Address, batch: seq<RedeemRecord>)
    requires Redeem(cfg, w.s, to, batch).Done?
    ensures RedeemAccepted(cfg, w.s, to, batch) && cfg.indexValue * |batch| <= w.s.balance
    ensures Apply(cfg, w, RedeemOp(to, batch)) ==
            w.(s := w.s.(claimed := w.s.claimed + Elements(RedeemKeys(w.s.currentEpoch, batch)),
                         balance := w.s.balance - cfg.indexValue * |batch|),
               redeemed := w.redeemed + cfg.indexValue * |batch|)
  {
    RedeemSucceedsIff(cfg, w.s, to, batch);
  }

  lemma MoneyStep(cfg: Config, w: World, v: World, n: nat)
    requires MoneyConserved(cfg, w)
    requires cfg.indexValue * n <= w.s.balance && v.s.balance == w.s.balance - cfg.indexValue * n
    requires v.redeemed == w.redeemed + cfg.indexValue * n
    requires |v.s.claimed| == |w.s.claimed| + n
    requires v.burned == w.burned && v.withdrawn == w.withdrawn && v.deposited == w.deposited
    ensures MoneyConserved(cfg, v)
  {
    ValueOfSum(cfg, |w.s.claimed|, n);
  }

  lemma RedeemKeepsMoney(cfg: Config, w: World, to: Address, batch: seq<RedeemRecord>)
    requires MoneyConserved(cfg, w) && Redeem(cfg, w.s, to, batch).Done?
    ensures MoneyConserved(cfg, Apply(cfg, w, RedeemOp(to, batch)))
  {
    RedeemEffect(cfg, w, to, batch);
    FreshClaims(cfg, w.s, to, batch);
    MoneyStep(cfg, w, Apply(cfg, w, RedeemOp(to, batch)), |batch|);
  }

  lemma RedeemKeepsInv(cfg: Config, w: World, to: Address, batch: seq<RedeemRecord>)
    requires Inv(cfg, w)
    ensures Inv(cfg, Apply(cfg, w, RedeemOp(to, batch)))
  {
    if Redeem(cfg, w.s, to, batch).Done? {
      RedeemKeepsMoney(cfg, w, to, batch);
      RedeemEffect(cfg, w, to, batch);
      FreshClaims(cfg, w.s, to, batch);
      assert LiveEntries(Apply(cfg, w, RedeemOp(to, batch)).s) == LiveEntries(w.s);
    }
  }

  /** The guard of a burn puts every stored time before the end and within a duration. */
  lemma BurnGuardBounds(cfg: Config, w: World)
    requires BurnWindowOpen(cfg, w.s, w.now)
    requires w.s.epochExpiresBy <= w.now + cfg.epochDuration
    ensures w.now + cfg.burnBuffer + INV_DISADVANTAGE_BUFFER < w.s.epochExpiresBy
    ensures cfg.burnBuffer + INV_DISADVANTAGE_BUFFER < cfg.epochDuration
  {}

  ghost predicate SameAt(s: State, t: State, k: Key) {
    && (k in s.claimed <==> k in t.claimed)
    && TimeOf(s, k) == TimeOf(t, k)
    && BlobOf(s, k) == BlobOf(t, k)
    && IAddressOf(s, k) == IAddressOf(t, k)
  }

  /** A burn leaves a key as it is, or stores a time at an unclaimed key of the epoch. */
  ghost predicate KeptOrBurned(cfg: Config, s: State, t: State, k: Key) {
    || (SameAt(s, t, k) && (k in s.burnTime <==> k in t.burnTime))
    || (&& k.epoch == s.currentEpoch && k !in s.claimed && k in t.burnTime
        && cfg.burnBuffer <= t.burnTime[k] <= cfg.burnBuffer + INV_DISADVANTAGE_BUFFER)
  }

  lemma BurnStepWrites(cfg: Config, s: State, total: nat, to: Address, r: BurnRecord)
    ensures var p := BurnStep(cfg, Running(s, total), to, r);
            p.Running? ==>
              && p.total == total + cfg.indexValue
              && p.state == s.(burnTime := p.state.burnTime, burnBlob := p.state.burnBlob, burnIAddress := p.state.burnIAddress)
              && |LiveEntries(p.state)| <= |LiveEntries(s)| + 1
              && forall k :: KeptOrBurned(cfg, s, p.state, k)
  {
    var p := BurnStep(cfg, Running(s, total), to, r);
    if p.Running? {
      var k := Key(r.index, s.currentEpoch);
      SubsetSize(LiveEntries(p.state), LiveEntries(s) + {k});
    }
  }

  /** What a burn loop writes, also when the burn buffer is zero. */
  lemma {:induction false} BurnLoopWrites(cfg: Config, s: State, to: Address, batch: seq<BurnRecord>)
    ensures var p := BurnLoop(cfg, s, to, batch);
            p.Running? ==>
              && p.total == cfg.indexValue * |batch|
              && p.state == s.(burnTime := p.state.burnTime, burnBlob := p.state.burnBlob, burnIAddress := p.state.burnIAddress)
              && |LiveEntries(p.state)| <= |LiveEntries(s)| + |batch|
              && forall k :: KeptOrBurned(cfg, s, p.state, k)
  {
    if batch != [] {
      var n := |batch| - 1;
      BurnLoopWrites(cfg, s, to, batch[..n]);
      var p := BurnLoop(cfg, s, to, batch[..n]);
      if p.Running? {
        BurnStepWrites(cfg, p.state, p.total, to, batch[n]);
        ValueOfSum(cfg, n, 1);
        var q := BurnLoop(cfg, s, to, batch);
        if q.Running? {
          forall k ensures KeptOrBurned(cfg, s, q.state, k) {
            assert KeptOrBurned(cfg, s, p.state, k) && KeptOrBurned(cfg, p.state, q.state, k);
          }
        }
      }
    }
  }

  lemma BurnOutcome(cfg: Config, w: World, to: Address, batch: seq<BurnRecord>)
    requires Burn(cfg, w.s, w.now, to, batch).Done?
    ensures var v := Apply(cfg, w, BurnOp(to, batch));
            && v == w.(s := w.s.(burnTime := v.s.burnTime, burnBlob := v.s.burnBlob, burnIAddress := v.s.burnIAddress,
                                 pendingBurnAmount := w.s.pendingBurnAmount + cfg.indexValue * |batch|))
            && |LiveEntries(v.s)| <= |LiveEntries(w.s)| + |batch|
            && forall k :: KeptOrBurned(cfg, w.s, v.s, k)
  {
    BurnLoopWrites(cfg, w.s, to, batch);
    var t := BurnLoop(cfg, w.s, to, batch).state;
    var v := Apply(cfg, w, BurnOp(to, batch));
    assert LiveEntries(v.s) == LiveEntries(t);
    forall k ensures KeptOrBurned(cfg, w.s, v.s, k) {
      assert KeptOrBurned(cfg, w.s, t, k);
    }
  }

  lemma CoverGrows(cfg: Config, w: World, v: World, n: nat)
    requires PendingCovers(cfg, w)
    requires v.s.pendingBurnAmount == w.s.pendingBurnAmount + cfg.indexValue * n
    requires |LiveEntries(v.s)| <= |LiveEntries(w.s)| + n
    requires v.settled == w.settled && v.now == w.now
    ensures PendingCovers(cfg, v)
  {
    ValueOfSum(cfg, |LiveEntries(w.s)|, n);
    MulMonotone(|LiveEntries(v.s)|, |LiveEntries(w.s)| + n, cfg.indexValue);
  }

  /** Entries and claims stay well timed and apart when a burn adds entries in its window. */
  lemma BurnKeepsTimes(cfg: Config, w: World, v: World)
    requires EntriesTimed(cfg, w) && ClaimsApart(w) && BurnWindowOpen(cfg, w.s, w.now)
    requires forall k :: KeptOrBurned(cfg, w.s, v.s, k)
    requires v.now == w.now && v.s.currentEpoch == w.s.currentEpoch && v.s.epochExpiresBy == w.s.epochExpiresBy
    requires v.s.claimed == w.s.claimed
    ensures EntriesTimed(cfg, v) && ClaimsApart(v)
  {
    BurnGuardBounds(cfg, w);
    forall k | k in v.s.claimed ensures TimeOf(v.s, k) == 0 {
      assert KeptOrBurned(cfg, w.s, v.s, k);
    }
    forall k | k in v.s.burnTime && !SameAt(w.s, v.s, k) ensures k.epoch == w.s.currentEpoch {
      assert KeptOrBurned(cfg, w.s, v.s, k);
    }
    assert forall k :: k in v.s.burnTime ==> KeptOrBurned(cfg, w.s, v.s, k);
  }

  lemma BurnKeysEpoch(cfg: Config, s: State, batch: seq<BurnRecord>)
    ensures forall k :: k in Elements(BurnKeys(s.currentEpoch, batch)) ==> k.epoch == s.currentEpoch
  {}

  lemma BurnDomain(cfg: Config, s: State, to: Address, batch: seq<BurnRecord>)
    requires BurnMapsAgree(s)
    ensures var t := AfterBurnLoop(cfg, s, to, batch);
            var keys := Elements(BurnKeys(s.currentEpoch, batch));
            && t.burnTime.Keys == s.burnTime.Keys + keys
            && t.burnBlob.Keys == s.burnTime.Keys + keys
            && t.burnIAddress.Keys == s.burnTime.Keys + keys
            && forall k :: k in keys ==> k.epoch == s.currentEpoch
  {
    BurnMapsDomain(cfg, s.currentEpoch, to, batch);
    BurnKeysEpoch(cfg, s, batch);
  }

  lemma LiveGrows(s: State, t: State, keys: set<Key>)
    requires t.currentEpoch == s.currentEpoch
    requires forall k :: k in t.burnTime <==> k in s.burnTime || k in keys
    requires forall k :: k in keys ==> k !in s.burnTime && k.epoch == s.currentEpoch
    ensures |LiveEntries(t)| == |LiveEntries(s)| + |keys|
  {
    var before, after := LiveEntries(s), LiveEntries(t);
    assert forall k :: k in after <==> k in before || k in keys;
    assert after == before + keys;
    DisjointSize(before, keys);
  }

  lemma BurnCount(cfg: Config, s: State, to: Address, batch: seq<BurnRecord>)
    requires BurnMapsAgree(s) && BurnAccepted(cfg, s, to, batch)
    ensures |LiveEntries(AfterBurnLoop(cfg, s, to, batch))| == |LiveEntries(s)| + |batch|
  {
    BurnDomain(cfg, s, to, batch);
    FreshKeys(cfg, s, to, batch);
    DistinctIffFullSize(BurnKeys(s.currentEpoch, batch));
    var t := AfterBurnLoop(cfg, s, to, batch);
    var keys := Elements(BurnKeys(s.currentEpoch, batch));
    assert forall k :: k in t.burnTime <==> k in t.burnTime.Keys;
    LiveGrows(s, t, keys);
  }

  lemma BurnEffect(cfg: Config, w: World, to: Address, batch: seq<BurnRecord>)
    requires cfg.burnBuffer > 0 && Burn(cfg, w.s, w.now, to, batch).Done?
    ensures BurnAccepted(cfg, w.s, to, batch) && BurnWindowOpen(cfg, w.s, w.now)
    ensures Apply(cfg, w, BurnOp(to, batch)) ==
            w.(s := AfterBurnLoop(cfg, w.s, to, batch)
                    .(pendingBurnAmount := w.s.pendingBurnAmount + cfg.indexValue * |batch|))
  {
    BurnSucceedsIff(cfg, w.s, w.now, to, batch);
  }

  lemma ExactGrows(cfg: Config, w: World, v: World, n: nat)
    requires PendingExact(cfg, w) && BurnMapsAgree(v.s)
    requires v.s.pendingBurnAmount == w.s.pendingBurnAmount + cfg.indexValue * n
    requires |LiveEntries(v.s)| == |LiveEntries(w.s)| + n
    requires v.settled == w.settled
    ensures PendingExact(cfg, v)
  {
    ValueOfSum(cfg, |LiveEntries(w.s)|, n);
  }

  lemma BurnKeepsAgreement(cfg: Config, s: State, to: Address, batch: seq<BurnRecord>)
    requires cfg.burnBuffer > 0 && BurnMapsAgree(s)
    ensures BurnMapsAgree(AfterBurnLoop(cfg, s, to, batch))
  {
    BurnDomain(cfg, s, to, batch);
    BurnMapsDomain(cfg, s.currentEpoch, to, batch);
  }

  lemma BurnKeepsExact(cfg: Config, w: World, to: Address, batch: seq<BurnRecord>)
    requires cfg.burnBuffer > 0 && PendingExact(cfg, w) && Burn(cfg, w.s, w.now, to, batch).Done?
    ensures PendingExact(cfg, Apply(cfg, w, BurnOp(to, batch)))
  {
    BurnEffect(cfg, w, to, batch);
    BurnCount(cfg, w.s, to, batch);
    BurnKeepsAgreement(cfg, w.s, to, batch);
    var v := Apply(cfg, w, BurnOp(to, batch));
    assert LiveEntries(v.s) == LiveEntries(AfterBurnLoop(cfg, w.s, to, batch));
    ExactGrows(cfg, w, v, |batch|);
  }

  lemma BurnKeepsInv(cfg: Config, w: World, to: Address, batch: seq<BurnRecord>)
    requires Inv(cfg, w)
    ensures Inv(cfg, Apply(cfg, w, BurnOp(to, batch)))
  {
    if Burn(cfg, w.s, w.now, to, batch).Done? {
      var v := Apply(cfg, w, BurnOp(to, batch));
      BurnOutcome(cfg, w, to, batch);
      BurnKeepsTimes(cfg, w, v);
      CoverGrows(cfg, w, v, |batch|);
      if cfg.burnBuffer > 0 {
        BurnKeepsExact(cfg, w, to, batch);
      }
    }
  }

  /** An entry that can still be challenged belongs to the current epoch. */
  lemma ChallengedAreLive(cfg: Config, w: World, batch: seq<ChallengeRecord>)
    requires EntriesTimed(cfg, w) && ChallengeAccepted(cfg, w.s, w.now, batch)
    ensures Elements(ChallengeKeys(batch)) <= LiveEntries(w.s)
    ensures |Elements(ChallengeKeys(batch))| == |batch|
    ensures batch != [] ==> w.now < cfg.epochDuration
  {
    DistinctIffFullSize(ChallengeKeys(batch));
    forall k | k in ChallengeKeys(batch) ensures k in LiveEntries(w.s) && w.now < w.s.burnTime[k] < cfg.epochDuration {
      var i :| 0 <= i < |batch| && batch[i].key == k;
    }
    if batch != [] {
      assert ChallengeKeys(batch)[0] in ChallengeKeys(batch);
    }
  }

  lemma ChallengeCount(cfg: Config, w: World, batch: seq<ChallengeRecord>)
    requires EntriesTimed(cfg, w) && ChallengeAccepted(cfg, w.s, w.now, batch)
    ensures var t := AfterChallengeLoop(w.s, Elements(ChallengeKeys(batch)));
            |LiveEntries(w.s)| == |LiveEntries(t)| + |batch|
  {
    ChallengedAreLive(cfg, w, batch);
    var keys := Elements(ChallengeKeys(batch));
    var t := AfterChallengeLoop(w.s, keys);
    assert LiveEntries(w.s) == LiveEntries(t) + keys;
    DisjointSize(LiveEntries(t), keys);
  }

  lemma AcceptedIsPending(cfg: Config, w: World, batch: seq<ChallengeRecord>)
    requires EntriesTimed(cfg, w) && PendingCovers(cfg, w) && ChallengeAccepted(cfg, w.s, w.now, batch)
    ensures cfg.indexValue * |batch| <= w.s.pendingBurnAmount
  {
    if batch != [] {
      ChallengedAreLive(cfg, w, batch);
      ChallengeCount(cfg, w, batch);
      MulMonotone(|batch|, |LiveEntries(w.s)|, cfg.indexValue);
    }
  }

  lemma ChallengeEffect(cfg: Config, w: World, batch: seq<ChallengeRecord>)
    requires Challenge(cfg, w.s, w.now, batch).Done?
    ensures ChallengeAccepted(cfg, w.s, w.now, batch) && cfg.indexValue * |batch| <= w.s.pendingBurnAmount
    ensures Apply(cfg, w, ChallengeOp(batch)) ==
            w.(s := AfterChallengeLoop(w.s, Elements(ChallengeKeys(batch)))
                    .(pendingBurnAmount := w.s.pendingBurnAmount - cfg.indexValue * |batch|))
  {
    ChallengeSucceedsIff(cfg, w.s, w.now, batch);
  }

  lemma CoverShrinks(cfg: Config, w: World, v: World, n: nat)
    requires w.s.pendingBurnAmount == v.s.pendingBurnAmount + cfg.indexValue * n
    requires |LiveEntries(w.s)| == |LiveEntries(v.s)| + n
    requires v.settled == w.settled && v.now == w.now
    ensures PendingCovers(cfg, w) ==> PendingCovers(cfg, v)
    ensures PendingExact(cfg, w) && BurnMapsAgree(v.s) ==> PendingExact(cfg, v)
  {
    ValueOfSum(cfg, |LiveEntries(v.s)|, n);
  }

  lemma ChallengeKeepsInv(cfg: Config, w: World, batch: seq<ChallengeRecord>)
    requires Inv(cfg, w)
    ensures Inv(cfg, Apply(cfg, w, ChallengeOp(batch)))
  {
    if Challenge(cfg, w.s, w.now, batch).Done? {
      ChallengeEffect(cfg, w, batch);
      ChallengeCount(cfg, w, batch);
      var t := AfterChallengeLoop(w.s, Elements(ChallengeKeys(batch)));
      var v := Apply(cfg, w, ChallengeOp(batch));
      assert LiveEntries(v.s) == LiveEntries(t);
      CoverShrinks(cfg, w, v, |batch|);
    }
  }

  lemma ApplyKeepsInv(cfg: Config, w: World, op: Op)
    requires Inv(cfg, w)
    ensures Inv(cfg, Apply(cfg, w, op))
  {
    match op
    case Deposit(_) => assert LiveEntries(Apply(cfg, w, op).s) == LiveEntries(w.s);
    case Tick(_) =>
    case StartEpochOp => StartEpochKeepsInv(cfg, w);
    case WithdrawOp(sender) => WithdrawKeepsInv(cfg, w, sender);
    case RedeemOp(to, batch) => RedeemKeepsInv(cfg, w, to, batch);
    case BurnOp(to, batch) => BurnKeepsInv(cfg, w, to, batch);
    case ChallengeOp(batch) => ChallengeKeepsInv(cfg, w, batch);
  }

  lemma {:induction false} RunKeepsInv(cfg: Config, w: World, ops: seq<Op>)
    requires Inv(cfg, w)
    ensures Inv(cfg, Run(cfg, w, ops))
    decreases |ops|
  {
    if ops != [] {
      ApplyKeepsInv(cfg, w, ops[0]);
      RunKeepsInv(cfg, Apply(cfg, w, ops[0]), ops[1..]);
    }
  }

  lemma DeployedInv(cfg: Config, start: nat)
    ensures Inv(cfg, Deployed(start))
  {
    assert LiveEntries(Deployed(start).s) == {};
  }

  // ----- what every run of a deployed wallet guarantees

  /**
   In every run no (index, epoch) is both claimed and burning, every entry's stored time
   lies before its epoch's end, and the pending amount, with what withdrawals already
   burned of it, covers the current epoch's entries: exactly, if the buffer is positive.
   */
  lemma AccountingHolds(cfg: Config, start: nat, ops: seq<Op>)
    ensures var w := Run(cfg, Deployed(start), ops);
            && (forall k :: !(k in w.s.claimed && TimeOf(w.s, k) != 0))
            && (forall k :: k in LiveEntries(w.s) ==> w.s.burnTime[k] < w.s.epochExpiresBy)
            && w.s.pendingBurnAmount + w.settled >= cfg.indexValue * |LiveEntries(w.s)|
            && (cfg.burnBuffer > 0 ==>
                  && w.s.pendingBurnAmount + w.settled == cfg.indexValue * |LiveEntries(w.s)|
                  && forall k :: k in LiveEntries(w.s) ==> w.s.burnTime[k] > 0)
  {
    DeployedInv(cfg, start);
    RunKeepsInv(cfg, Deployed(start), ops);
  }

  /**
   In every run a challenge is refused only for a repeated key, an entry whose stored
   time has passed, or a wrong signature: the subtraction from the pending amount never
   underflows, although withdrawals may zero that amount within an epoch.
   */
  lemma ChallengeNeverUnderflows(cfg: Config, start: nat, ops: seq<Op>, batch: seq<ChallengeRecord>)
    ensures var w := Run(cfg, Deployed(start), ops);
            Challenge(cfg, w.s, w.now, batch).Done? <==> ChallengeAccepted(cfg, w.s, w.now, batch)
  {
    DeployedInv(cfg, start);
    RunKeepsInv(cfg, Deployed(start), ops);
    var w := Run(cfg, Deployed(start), ops);
    ChallengeSucceedsIff(cfg, w.s, w.now, batch);
    if ChallengeAccepted(cfg, w.s, w.now, batch) {
      AcceptedIsPending(cfg, w, batch);
    }
  }

  /**
   The balance and everything paid out add up to everything paid in, and the redeemed
   total is one index value for each claimed pair: a pair is paid at most once, ever.
   */
  lemma EveryCoinAccountedFor(cfg: Config, start: nat, ops: seq<Op>)
    ensures var w := Run(cfg, Deployed(start), ops);
            && w.s.balance + w.redeemed + w.burned + w.withdrawn == w.deposited
            && w.redeemed == cfg.indexValue * |w.s.claimed|
  {
    DeployedInv(cfg, start);
    RunKeepsInv(cfg, Deployed(start), ops);
  }
}
