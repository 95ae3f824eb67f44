/**
 Solvency by counting. Half of an epoch's opening reserves, divided by the index value,
 is the number of indexes the epoch has. If every index the owner signs lies in that
 range and the owner withdraws only after the epoch's end, then redemptions and pending
 burns together never reach into the other half. Every transfer is then covered until
 the owner withdraws; what is redeemed after that is paid from later deposits, or refused.
 */
module WalletSolvency {
  import opened Common
  import opened WalletModel
  import opened WalletBatches
  import opened WalletRuns
  import opened WalletEpochs

  /** The largest index of the epoch: half the reserves over the index value. */
  function IndexMax(cfg: Config, reserves: nat): nat
    requires cfg.indexValue > 0
  {
    Quotient(reserves, 2 * cfg.indexValue)
  }

  /** An index of the current epoch, by the reserves with which the epoch opened. */
  ghost predicate InRange(cfg: Config, w: World, k: Key)
    requires cfg.indexValue > 0
  {
    1 <= k.index <= IndexMax(cfg, w.opening) && k.epoch == w.s.currentEpoch
  }

  /**
   The owner signs only indexes that the epoch has, and withdraws only after it. Nothing is
   asked of anybody else.
   */
  ghost predicate Disciplined(cfg: Config, w: World, op: Op)
    requires cfg.indexValue > 0
  {
    match op
    case RedeemOp(to, batch) =>
      forall i :: 0 <= i < |batch| && RedeemSigned(cfg, w.s.currentEpoch, to, batch[i]) ==>
        InRange(cfg, w, Key(batch[i].index, w.s.currentEpoch))
    case BurnOp(to, batch) =>
      forall i :: 0 <= i < |batch| && BurnSigned(cfg, w.s.currentEpoch, to, batch[i]) ==>
        InRange(cfg, w, Key(batch[i].index, w.s.currentEpoch))
    case WithdrawOp(sender) => sender == cfg.owner ==> w.now >= w.s.epochExpiresBy
    case _ => true
  }

  ghost predicate DisciplinedRun(cfg: Config, w: World, ops: seq<Op>)
    requires cfg.indexValue > 0
    decreases |ops|
  {
    ops != [] ==> Disciplined(cfg, w, ops[0]) && DisciplinedRun(cfg, Apply(cfg, w, ops[0]), ops[1..])
  }

  function LiveClaims(s: State): set<Key> {
    set k | k in s.claimed && k.epoch == s.currentEpoch
  }

  ghost predicate AllInRange(cfg: Config, w: World)
    requires cfg.indexValue > 0
  {
    && (forall k :: k in LiveClaims(w.s) ==> InRange(cfg, w, k))
    && (forall k :: k in LiveEntries(w.s) ==> InRange(cfg, w, k))
  }

  /** Nothing but the epoch's own claims has been paid out of its opening reserves. */
  ghost predicate Untouched(cfg: Config, w: World) {
    && w.settled == 0 && w.s.reserves == w.opening
    && w.opening <= w.s.balance + cfg.indexValue * |LiveClaims(w.s)|
  }

  /** The owner has withdrawn since the epoch's end: nothing is pending any more. */
  ghost predicate Withdrawn(w: World) {
    w.s.reserves == 0 && w.s.pendingBurnAmount == 0 && w.now >= w.s.epochExpiresBy
  }

  ghost predicate Backed(cfg: Config, w: World)
    requires cfg.indexValue > 0
  {
    AllInRange(cfg, w) && (Untouched(cfg, w) || Withdrawn(w))
  }

  // ----- the counting argument

  function IndexRange(n: nat, epoch: nat): set<Key> {
    set i | 1 <= i <= n :: Key(i, epoch)
  }

  lemma {:induction false} IndexRangeSize(n: nat, epoch: nat)
    ensures |IndexRange(n, epoch)| == n
  {
    if n == 0 {
      assert IndexRange(n, epoch) == {};
    } else {
      IndexRangeSize(n - 1, epoch);
      assert IndexRange(n, epoch) == IndexRange(n - 1, epoch) + {Key(n, epoch)};
    }
  }

  /** Claims and entries of the epoch are distinct indexes of one range. */
  lemma Pigeonhole(cfg: Config, w: World)
    requires cfg.indexValue > 0 && cfg.burnBuffer > 0 && Inv(cfg, w) && AllInRange(cfg, w)
    ensures |LiveClaims(w.s)| + |LiveEntries(w.s)| <= IndexMax(cfg, w.opening)
  {
    var used := LiveClaims(w.s) + LiveEntries(w.s);
    var range := IndexRange(IndexMax(cfg, w.opening), w.s.currentEpoch);
    DisjointSize(LiveClaims(w.s), LiveEntries(w.s));
    forall k | k in used ensures k in range {
      assert InRange(cfg, w, k);
      assert k == Key(k.index, w.s.currentEpoch);
    }
    SubsetSize(used, range);
    IndexRangeSize(IndexMax(cfg, w.opening), w.s.currentEpoch);
  }

  lemma HalfReserves(cfg: Config, reserves: nat, n: nat)
    requires cfg.indexValue > 0 && n <= IndexMax(cfg, reserves)
    ensures 2 * (cfg.indexValue * n) <= reserves
  {
    QuotientBounds(reserves, 2 * cfg.indexValue);
    MulMonotone(n, IndexMax(cfg, reserves), 2 * cfg.indexValue);
  }

  /**
   What has been redeemed in the epoch and what is pending is at most half the opening
   reserves; the balance covers the pending amount, and as long as the reserves have not
   been withdrawn it also covers the other half.
   */
  lemma SecurityHalfSurvives(cfg: Config, w: World)
    requires cfg.indexValue > 0 && cfg.burnBuffer > 0 && Inv(cfg, w) && Backed(cfg, w)
    ensures 2 * (cfg.indexValue * |LiveClaims(w.s)| + w.s.pendingBurnAmount) <= w.opening
    ensures w.s.pendingBurnAmount <= w.s.balance
    ensures w.s.reserves == w.opening ==> w.s.balance >= w.s.pendingBurnAmount + (w.opening - w.opening / 2)
  {
    var c, l := |LiveClaims(w.s)|, |LiveEntries(w.s)|;
    Pigeonhole(cfg, w);
    HalfReserves(cfg, w.opening, c + l);
    ValueOfSum(cfg, c, l);
  }

  // ----- the discipline keeps the wallet backed

  lemma SignedKeysInRange(cfg: Config, w: World, to: Address, batch: seq<RedeemRecord>)
    requires cfg.indexValue > 0 && RedeemAccepted(cfg, w.s, to, batch)
    requires Disciplined(cfg, w, RedeemOp(to, batch))
    ensures forall k :: k in Elements(RedeemKeys(w.s.currentEpoch, batch)) ==> InRange(cfg, w, k)
  {
    forall k | k in RedeemKeys(w.s.currentEpoch, batch) ensures InRange(cfg, w, k) {
      var i :| 0 <= i < |batch| && k == Key(batch[i].index, w.s.currentEpoch);
    }
  }

  lemma RedeemCounts(cfg: Config, s: State, t: State, to: Address, batch: seq<RedeemRecord>)
    requires RedeemAccepted(cfg, s, to, batch)
    requires t.claimed == s.claimed + Elements(RedeemKeys(s.currentEpoch, batch)) && t.currentEpoch == s.currentEpoch
    ensures LiveClaims(t) == LiveClaims(s) + Elements(RedeemKeys(s.currentEpoch, batch))
    ensures |LiveClaims(t)| == |LiveClaims(s)| + |batch|
  {
    FreshClaims(cfg, s, to, batch);
    DisjointSize(LiveClaims(s), Elements(RedeemKeys(s.currentEpoch, batch)));
  }

  lemma StaysUntouched(cfg: Config, w: World, v: World, n: nat)
    requires Untouched(cfg, w)
    requires v.settled == 0 && v.opening == w.opening && v.s.reserves == w.s.reserves
    requires w.s.balance == v.s.balance + cfg.indexValue * n
    requires |LiveClaims(v.s)| == |LiveClaims(w.s)| + n
    ensures Untouched(cfg, v)
  {
    ValueOfSum(cfg, |LiveClaims(w.s)|, n);
  }

  lemma RedeemKeepsBacked(cfg: Config, w: World, to: Address, batch: seq<RedeemRecord>)
    requires cfg.indexValue > 0 && Inv(cfg, w) && Backed(cfg, w)
    requires Disciplined(cfg, w, RedeemOp(to, batch))
    ensures Backed(cfg, Apply(cfg, w, RedeemOp(to, batch)))
  {
    if Redeem(cfg, w.s, to, batch).Done? {
      RedeemEffect(cfg, w, to, batch);
      var v := Apply(cfg, w, RedeemOp(to, batch));
      RedeemCounts(cfg, w.s, v.s, to, batch);
      SignedKeysInRange(cfg, w, to, batch);
      assert LiveEntries(v.s) == LiveEntries(w.s);
      if Untouched(cfg, w) {
        StaysUntouched(cfg, w, v, |batch|);
      }
    }
  }

  lemma BurnsInRange(cfg: Config, w: World, to: Address, batch: seq<BurnRecord>)
    requires cfg.indexValue > 0 && BurnAccepted(cfg, w.s, to, batch)
    requires Disciplined(cfg, w, BurnOp(to, batch))
    ensures forall k :: k in Elements(BurnKeys(w.s.currentEpoch, batch)) ==> InRange(cfg, w, k)
  {
    forall k | k in BurnKeys(w.s.currentEpoch, batch) ensures InRange(cfg, w, k) {
      var i :| 0 <= i < |batch| && k == Key(batch[i].index, w.s.currentEpoch);
    }
  }

  lemma BurnKeepsRange(cfg: Config, w: World, to: Address, batch: seq<BurnRecord>, v: World)
    requires cfg.indexValue > 0 && AllInRange(cfg, w) && BurnMapsAgree(w.s)
    requires forall k :: k in Elements(BurnKeys(w.s.currentEpoch, batch)) ==> InRange(cfg, w, k)
    requires v == w.(s := AfterBurnLoop(cfg, w.s, to, batch).(pendingBurnAmount := v.s.pendingBurnAmount))
    ensures AllInRange(cfg, v) && LiveClaims(v.s) == LiveClaims(w.s)
  {
    BurnDomain(cfg, w.s, to, batch);
    assert LiveClaims(v.s) == LiveClaims(w.s);
    forall k | k in LiveClaims(v.s) ensures InRange(cfg, v, k) {
      assert k in LiveClaims(w.s);
    }
    forall k | k in LiveEntries(v.s) ensures InRange(cfg, v, k) {
      assert k in v.s.burnTime.Keys;
      assert k in LiveEntries(w.s) || k in Elements(BurnKeys(w.s.currentEpoch, batch));
    }
  }

  /** The window of burns is closed once the owner may have withdrawn. */
  lemma BurnKeepsBacked(cfg: Config, w: World, to: Address, batch: seq<BurnRecord>)
    requires cfg.indexValue > 0 && cfg.burnBuffer > 0 && Inv(cfg, w) && Backed(cfg, w)
    requires Disciplined(cfg, w, BurnOp(to, batch))
    ensures Backed(cfg, Apply(cfg, w, BurnOp(to, batch)))
  {
    if Burn(cfg, w.s, w.now, to, batch).Done? {
      BurnEffect(cfg, w, to, batch);
      BurnsInRange(cfg, w, to, batch);
      BurnKeepsRange(cfg, w, to, batch, Apply(cfg, w, BurnOp(to, batch)));
    }
  }

  lemma ChallengeKeepsBacked(cfg: Config, w: World, batch: seq<ChallengeRecord>)
    requires cfg.indexValue > 0 && Inv(cfg, w) && Backed(cfg, w)
    ensures Backed(cfg, Apply(cfg, w, ChallengeOp(batch)))
  {
    if Challenge(cfg, w.s, w.now, batch).Done? {
      ChallengeEffect(cfg, w, batch);
      var v := Apply(cfg, w, ChallengeOp(batch));
      assert LiveClaims(v.s) == LiveClaims(w.s);
      assert LiveEntries(v.s) <= LiveEntries(w.s);
    }
  }

  lemma EpochStartsBacked(cfg: Config, w: World)
    requires cfg.indexValue > 0 && Inv(cfg, w) && Backed(cfg, w)
    ensures Backed(cfg, Apply(cfg, w, StartEpochOp))
  {
    var v := Apply(cfg, w, StartEpochOp);
    if StartEpoch(cfg, w.s, w.now).Done? {
      assert LiveClaims(v.s) == {} && LiveEntries(v.s) == {};
    }
  }

  lemma WithdrawKeepsBacked(cfg: Config, w: World, sender: Address)
    requires cfg.indexValue > 0 && Backed(cfg, w) && Disciplined(cfg, w, WithdrawOp(sender))
    ensures Backed(cfg, Apply(cfg, w, WithdrawOp(sender)))
  {
    var v := Apply(cfg, w, WithdrawOp(sender));
    assert LiveClaims(v.s) == LiveClaims(w.s) && LiveEntries(v.s) == LiveEntries(w.s);
  }

  lemma DepositKeepsBacked(cfg: Config, w: World, amount: nat)
    requires cfg.indexValue > 0 && Backed(cfg, w)
    ensures Backed(cfg, Apply(cfg, w, Deposit(amount)))
  {
    var v := Apply(cfg, w, Deposit(amount));
    assert LiveClaims(v.s) == LiveClaims(w.s) && LiveEntries(v.s) == LiveEntries(w.s);
  }

  lemma ApplyKeepsBacked(cfg: Config, w: World, op: Op)
    requires cfg.indexValue > 0 && cfg.burnBuffer > 0 && Inv(cfg, w) && Backed(cfg, w)
    requires Disciplined(cfg, w, op)
    ensures Backed(cfg, Apply(cfg, w, op))
  {
    match op
    case Deposit(amount) => DepositKeepsBacked(cfg, w, amount);
    case Tick(_) =>
    case StartEpochOp => EpochStartsBacked(cfg, w);
    case WithdrawOp(sender) => WithdrawKeepsBacked(cfg, w, sender);
    case RedeemOp(to, batch) => RedeemKeepsBacked(cfg, w, to, batch);
    case BurnOp(to, batch) => BurnKeepsBacked(cfg, w, to, batch);
    case ChallengeOp(batch) => ChallengeKeepsBacked(cfg, w, batch);
  }

  lemma {:induction false} RunKeepsBacked(cfg: Config, w: World, ops: seq<Op>)
    requires cfg.indexValue > 0 && cfg.burnBuffer > 0 && Inv(cfg, w) && Backed(cfg, w)
    requires DisciplinedRun(cfg, w, ops)
    ensures Inv(cfg, Run(cfg, w, ops)) && Backed(cfg, Run(cfg, w, ops))
    decreases |ops|
  {
    if ops != [] {
      ApplyKeepsInv(cfg, w, ops[0]);
      ApplyKeepsBacked(cfg, w, ops[0]);
      RunKeepsBacked(cfg, Apply(cfg, w, ops[0]), ops[1..]);
    }
  }

  // ----- what is covered, and what is not

  lemma ClaimsWithinHalf(cfg: Config, w: World, to: Address, batch: seq<RedeemRecord>)
    requires cfg.indexValue > 0 && Inv(cfg, w) && AllInRange(cfg, w)
    requires RedeemAccepted(cfg, w.s, to, batch) && Disciplined(cfg, w, RedeemOp(to, batch))
    ensures |LiveClaims(w.s)| + |batch| <= IndexMax(cfg, w.opening)
  {
    SignedKeysInRange(cfg, w, to, batch);
    var t := AfterRedeemLoop(w.s, RedeemKeys(w.s.currentEpoch, batch));
    RedeemCounts(cfg, w.s, t, to, batch);
    var range := IndexRange(IndexMax(cfg, w.opening), w.s.currentEpoch);
    forall k | k in LiveClaims(t) ensures k in range {
      assert InRange(cfg, w, k);
      assert k == Key(k.index, w.s.currentEpoch);
    }
    SubsetSize(LiveClaims(t), range);
    IndexRangeSize(IndexMax(cfg, w.opening), w.s.currentEpoch);
  }

  /** The batch's own indexes are part of the same count. */
  lemma AcceptedIsCovered(cfg: Config, w: World, to: Address, batch: seq<RedeemRecord>)
    requires cfg.indexValue > 0 && Inv(cfg, w) && Backed(cfg, w) && w.s.reserves == w.opening
    requires RedeemAccepted(cfg, w.s, to, batch) && Disciplined(cfg, w, RedeemOp(to, batch))
    ensures cfg.indexValue * |batch| <= w.s.balance
  {
    ClaimsWithinHalf(cfg, w, to, batch);
    HalfReserves(cfg, w.opening, |LiveClaims(w.s)| + |batch|);
    ValueOfSum(cfg, |LiveClaims(w.s)|, |batch|);
  }

  /**
   In every disciplined run of a deployed wallet, an acceptable redemption of indexes the
   epoch has is refused for lack of funds only when the opening reserves have been
   withdrawn and what has been paid in since does not suffice. The pending amount is
   always covered: once the clock reaches the epoch's end the next epoch can start (up to
   the word range of the counter and the clock), and the owner's withdrawal needs nothing
   but its guard.
   */
  lemma EveryTransferCovered(cfg: Config, start: nat, ops: seq<Op>, to: Address, batch: seq<RedeemRecord>)
    requires cfg.indexValue > 0 && cfg.burnBuffer > 0
    requires DisciplinedRun(cfg, Deployed(start), ops)
    ensures var w := Run(cfg, Deployed(start), ops);
            RedeemAccepted(cfg, w.s, to, batch) && Disciplined(cfg, w, RedeemOp(to, batch)) ==>
              (Redeem(cfg, w.s, to, batch).Done? <==>
                 w.s.reserves == w.opening || cfg.indexValue * |batch| <= w.s.balance)
    ensures var w := Run(cfg, Deployed(start), ops);
            StartEpoch(cfg, w.s, w.now).Done? <==>
              && w.now >= w.s.epochExpiresBy
              && w.s.currentEpoch + 1 < U256_SIZE && w.now + cfg.epochDuration < U256_SIZE
    ensures var w := Run(cfg, Deployed(start), ops);
            Withdraw(cfg, w.s, w.now, cfg.owner).Done? <==> w.now >= cfg.epochDuration
  {
    var w := Run(cfg, Deployed(start), ops);
    DeployedInv(cfg, start);
    RunKeepsBacked(cfg, Deployed(start), ops);
    SecurityHalfSurvives(cfg, w);
    RedeemSucceedsIff(cfg, w.s, to, batch);
    if && RedeemAccepted(cfg, w.s, to, batch) && Disciplined(cfg, w, RedeemOp(to, batch))
       && w.s.reserves == w.opening {
      AcceptedIsCovered(cfg, w, to, batch);
    }
  }

  /** Some withdrawal of the owner's in the list is accepted. */
  ghost predicate WithdrawsIn(cfg: Config, w: World, ops: seq<Op>)
    decreases |ops|
  {
    ops != [] &&
    ((ops[0] == WithdrawOp(cfg.owner) && OutcomeOf(cfg, w, ops[0]).Done?) || WithdrawsIn(cfg, Apply(cfg, w, ops[0]), ops[1..]))
  }

  lemma ApplyKeepsReserves(cfg: Config, w: World, op: Op)
    requires Apply(cfg, w, op).s.currentEpoch == w.s.currentEpoch
    ensures Apply(cfg, w, op).s.reserves ==
            if op == WithdrawOp(cfg.owner) && OutcomeOf(cfg, w, op).Done? then 0 else w.s.reserves
  {
    match op
    case RedeemOp(to, batch) =>
      if Redeem(cfg, w.s, to, batch).Done? {
        RedeemEffect(cfg, w, to, batch);
      }
    case BurnOp(to, batch) =>
      if Burn(cfg, w.s, w.now, to, batch).Done? {
        BurnOutcome(cfg, w, to, batch);
      }
    case ChallengeOp(batch) =>
      if Challenge(cfg, w.s, w.now, batch).Done? {
        ChallengeEffect(cfg, w, batch);
      }
    case _ =>
  }

  /** Within an epoch the reserves are the opening ones exactly until a withdrawal. */
  lemma {:induction false} ReservesTellWithdrawal(cfg: Config, w: World, ops: seq<Op>)
    requires w.s.reserves in {0, w.opening}
    requires Run(cfg, w, ops).s.currentEpoch == w.s.currentEpoch
    ensures Run(cfg, w, ops).s.reserves == Run(cfg, w, ops).opening <==>
              w.opening == 0 || (w.s.reserves == w.opening && !WithdrawsIn(cfg, w, ops))
    decreases |ops|
  {
    EpochKeepsItsTerms(cfg, w, ops);
    if ops != [] {
      var v := Apply(cfg, w, ops[0]);
      ApplyKeepsTerms(cfg, w, ops[0]);
      EpochKeepsItsTerms(cfg, v, ops[1..]);
      ApplyKeepsReserves(cfg, w, ops[0]);
      ReservesTellWithdrawal(cfg, v, ops[1..]);
    }
  }

  ghost predicate NoDeposit(ops: seq<Op>) {
    forall i :: 0 <= i < |ops| ==> !ops[i].Deposit?
  }

  lemma EmptyStaysEmpty(cfg: Config, w: World, op: Op)
    requires w.s.balance == 0 && !op.Deposit?
    ensures Apply(cfg, w, op).s.balance == 0
  {
    match op
    case RedeemOp(to, batch) =>
      if Redeem(cfg, w.s, to, batch).Done? {
        RedeemEffect(cfg, w, to, batch);
      }
    case BurnOp(to, batch) =>
      if Burn(cfg, w.s, w.now, to, batch).Done? {
        BurnOutcome(cfg, w, to, batch);
      }
    case ChallengeOp(batch) =>
      if Challenge(cfg, w.s, w.now, batch).Done? {
        ChallengeEffect(cfg, w, batch);
      }
    case _ =>
  }

  /** A wallet emptied by its owner redeems nothing until somebody pays in. */
  lemma {:induction false} NothingPaidFromEmpty(cfg: Config, w: World, ops: seq<Op>, to: Address, batch: seq<RedeemRecord>)
    requires cfg.indexValue > 0 && w.s.balance == 0 && NoDeposit(ops) && batch != []
    ensures Redeem(cfg, Run(cfg, w, ops).s, to, batch).Reverted?
    decreases |ops|
  {
    if ops == [] {
      RedeemSucceedsIff(cfg, w.s, to, batch);
      MulMonotone(1, |batch|, cfg.indexValue);
    } else {
      EmptyStaysEmpty(cfg, w, ops[0]);
      NothingPaidFromEmpty(cfg, Apply(cfg, w, ops[0]), ops[1..], to, batch);
    }
  }

  /** A withdrawal touches none of the conditions that a redemption is checked for. */
  lemma WithdrawKeepsAcceptance(cfg: Config, w: World, to: Address, batch: seq<RedeemRecord>)
    requires cfg.indexValue > 0 && Withdraw(cfg, w.s, w.now, cfg.owner).Done?
    ensures var v := Apply(cfg, w, WithdrawOp(cfg.owner));
            && v.s.balance == 0
            && (RedeemAccepted(cfg, v.s, to, batch) <==> RedeemAccepted(cfg, w.s, to, batch))
            && (Disciplined(cfg, v, RedeemOp(to, batch)) <==> Disciplined(cfg, w, RedeemOp(to, batch)))
  {
    var v := Apply(cfg, w, WithdrawOp(cfg.owner));
    assert forall k :: Taken(v.s, k) <==> Taken(w.s, k);
  }

  /**
   So a disciplined owner, by withdrawing after the epoch's end, turns away every
   redemption of the epoch still to come, until somebody pays in: it would have been
   accepted and paid before, and is still acceptable, but refused.
   */
  lemma {:induction false} WithdrawalCutsOffRedemptions(cfg: Config, w: World, to: Address, batch: seq<RedeemRecord>, ops: seq<Op>)
    requires cfg.indexValue > 0 && cfg.burnBuffer > 0 && Inv(cfg, w) && Backed(cfg, w) && w.s.reserves == w.opening
    requires RedeemAccepted(cfg, w.s, to, batch) && Disciplined(cfg, w, RedeemOp(to, batch)) && batch != []
    requires w.now >= cfg.epochDuration && NoDeposit(ops)
    ensures Redeem(cfg, w.s, to, batch).Done?
    ensures var v := Apply(cfg, w, WithdrawOp(cfg.owner));
            && RedeemAccepted(cfg, v.s, to, batch) && Disciplined(cfg, v, RedeemOp(to, batch))
            && Redeem(cfg, Run(cfg, v, ops).s, to, batch).Reverted?
  {
    AcceptedIsCovered(cfg, w, to, batch);
    RedeemSucceedsIff(cfg, w.s, to, batch);
    SecurityHalfSurvives(cfg, w);
    WithdrawKeepsAcceptance(cfg, w, to, batch);
    NothingPaidFromEmpty(cfg, Apply(cfg, w, WithdrawOp(cfg.owner)), ops, to, batch);
  }

  lemma {:induction false} QuietRunIsDisciplined(cfg: Config, w: World, ops: seq<Op>)
    requires cfg.indexValue > 0
    requires forall i :: 0 <= i < |ops| ==> ops[i].Deposit? || ops[i].Tick? || ops[i].StartEpochOp?
    ensures DisciplinedRun(cfg, w, ops)
    decreases |ops|
  {
    if ops != [] {
      QuietRunIsDisciplined(cfg, Apply(cfg, w, ops[0]), ops[1..]);
    }
  }

  /** Funds for one index are paid in, with the security deposit, and the first epoch runs its time. */
  function FirstEpochRun(cfg: Config): seq<Op> {
    [Deposit(2 * cfg.indexValue)] + ([StartEpochOp] + [Tick(cfg.epochDuration)])
  }

  lemma FirstEpochEnds(cfg: Config)
    requires cfg.indexValue > 0 && 2 * cfg.indexValue < U256_SIZE && cfg.epochDuration < U256_SIZE
    ensures var w := Run(cfg, Deployed(0), FirstEpochRun(cfg));
            && w.s == State({}, map[], map[], map[], 1, cfg.epochDuration, 2 * cfg.indexValue, 0, 2 * cfg.indexValue)
            && w.now == cfg.epochDuration && w.opening == 2 * cfg.indexValue
    ensures DisciplinedRun(cfg, Deployed(0), FirstEpochRun(cfg))
  {
    var w := Apply(cfg, Deployed(0), Deposit(2 * cfg.indexValue));
    var v := Apply(cfg, w, StartEpochOp);
    RunStep(cfg, Deployed(0), Deposit(2 * cfg.indexValue), [StartEpochOp] + [Tick(cfg.epochDuration)]);
    RunStep(cfg, w, StartEpochOp, [Tick(cfg.epochDuration)]);
    RunStep(cfg, v, Tick(cfg.epochDuration), []);
    QuietRunIsDisciplined(cfg, Deployed(0), FirstEpochRun(cfg));
  }

  lemma OneIndex(cfg: Config, w: World)
    requires cfg.indexValue > 0 && w.opening == 2 * cfg.indexValue && w.s.currentEpoch == 1
    ensures InRange(cfg, w, Key(1, 1))
  {
    QuotientIsUnique(w.opening, 1, 0, 2 * cfg.indexValue);
  }

  /**
   It happens in any wallet with a signed redemption of index 1: after that run the owner
   withdraws, and the one index of the epoch, which could have been redeemed, is refused.
   */
  lemma {:induction false} RefusedRedemption(cfg: Config, to: Address, r: RedeemRecord)
    requires cfg.indexValue > 0 && 2 * cfg.indexValue < U256_SIZE && cfg.epochDuration < U256_SIZE
    requires r.index == 1 && RedeemSigned(cfg, 1, to, r)
    ensures var w := Run(cfg, Deployed(0), FirstEpochRun(cfg));
            var v := Apply(cfg, w, WithdrawOp(cfg.owner));
            && Disciplined(cfg, w, WithdrawOp(cfg.owner)) && Disciplined(cfg, v, RedeemOp(to, [r]))
            && RedeemAccepted(cfg, v.s, to, [r])
            && Redeem(cfg, w.s, to, [r]).Done? && Redeem(cfg, v.s, to, [r]).Reverted?
  {
    FirstEpochEnds(cfg);
    var w := Run(cfg, Deployed(0), FirstEpochRun(cfg));
    var v := Apply(cfg, w, WithdrawOp(cfg.owner));
    OneIndex(cfg, v);
    RedeemSucceedsIff(cfg, w.s, to, [r]);
    RedeemSucceedsIff(cfg, v.s, to, [r]);
  }

  // ----- the range view

  /**
   The view refuses ranges that are empty, or of another epoch, or too late; it panics on
   the rest for a zero or an overflowing divisor; and otherwise it accepts a range exactly
   when it reaches up to the largest index or beyond it. The documented rule is that the range stays within the largest index; the two
   agree on a range exactly when it ends at that index.
   */
  lemma {:induction false} RangeViewDecides(cfg: Config, s: State, now: nat, sIndex: nat, eIndex: nat, epoch: nat)
    ensures var open := 1 <= sIndex < eIndex && epoch == s.currentEpoch && now < s.epochExpiresBy;
            IsValidCommitRange(cfg, s, now, sIndex, eIndex, epoch) ==
              if !open then Some(false)
              else if cfg.indexValue == 0 || 2 * cfg.indexValue >= U256_SIZE then None
              else Some(IndexMax(cfg, s.reserves) <= eIndex)
    ensures && 1 <= sIndex < eIndex && epoch == s.currentEpoch && now < s.epochExpiresBy
            && 0 < cfg.indexValue && 2 * cfg.indexValue < U256_SIZE ==>
              (IsValidCommitRange(cfg, s, now, sIndex, eIndex, epoch) == Some(eIndex <= IndexMax(cfg, s.reserves))
               <==> eIndex == IndexMax(cfg, s.reserves))
  {
    if cfg.indexValue > 0 {
      QuotientIsDivision(s.reserves, 2 * cfg.indexValue);
    }
  }
}
