/**
 The wallet through time: what an epoch leaves to the next, how long a burn can be
 challenged, how long an epoch lasts, and when its owner may withdraw.
 */
module WalletEpochs {
  import opened Common
  import opened WalletModel
  import opened WalletBatches
  import opened WalletRuns

  // ----- epochs do not interfere

  lemma RedeemKeepsOtherEpochs(cfg: Config, s: State, to: Address, batch: seq<RedeemRecord>, k: Key)
    requires k.epoch != s.currentEpoch && Redeem(cfg, s, to, batch).Done?
    ensures SameAt(s, Redeem(cfg, s, to, batch).state, k)
    ensures Redeem(cfg, s, to, batch).state.currentEpoch == s.currentEpoch
  {
    RedeemSucceedsIff(cfg, s, to, batch);
  }

  lemma ChallengeKeepsOtherEpochs(cfg: Config, w: World, batch: seq<ChallengeRecord>, k: Key)
    requires Inv(cfg, w) && k.epoch != w.s.currentEpoch && Challenge(cfg, w.s, w.now, batch).Done?
    ensures SameAt(w.s, Challenge(cfg, w.s, w.now, batch).state, k)
    ensures Challenge(cfg, w.s, w.now, batch).state.currentEpoch == w.s.currentEpoch
  {
    ChallengeSucceedsIff(cfg, w.s, w.now, batch);
    ChallengedAreLive(cfg, w, batch);
    assert k !in Elements(ChallengeKeys(batch));
  }

  lemma BurnKeepsOtherEpochs(cfg: Config, w: World, to: Address, batch: seq<BurnRecord>, k: Key)
    requires k.epoch != w.s.currentEpoch && Burn(cfg, w.s, w.now, to, batch).Done?
    ensures SameAt(w.s, Burn(cfg, w.s, w.now, to, batch).state, k)
    ensures Burn(cfg, w.s, w.now, to, batch).state.currentEpoch == w.s.currentEpoch
  {
    BurnOutcome(cfg, w, to, batch);
    assert KeptOrBurned(cfg, w.s, Apply(cfg, w, BurnOp(to, batch)).s, k);
  }

  lemma OutcomeKeepsOtherEpochs(cfg: Config, w: World, op: Op, k: Key)
    requires Inv(cfg, w) && k.epoch != w.s.currentEpoch && OutcomeOf(cfg, w, op).Done?
    ensures SameAt(w.s, OutcomeOf(cfg, w, op).state, k)
    ensures w.s.currentEpoch <= OutcomeOf(cfg, w, op).state.currentEpoch
  {
    match op
    case RedeemOp(to, batch) => RedeemKeepsOtherEpochs(cfg, w.s, to, batch, k);
    case BurnOp(to, batch) => BurnKeepsOtherEpochs(cfg, w, to, batch, k);
    case ChallengeOp(batch) => ChallengeKeepsOtherEpochs(cfg, w, batch, k);
    case _ =>
  }

  lemma ApplyKeepsOtherEpochs(cfg: Config, w: World, op: Op, k: Key)
    requires Inv(cfg, w) && k.epoch != w.s.currentEpoch
    ensures SameAt(w.s, Apply(cfg, w, op).s, k)
    ensures w.s.currentEpoch <= Apply(cfg, w, op).s.currentEpoch
  {
    if OutcomeOf(cfg, w, op).Done? {
      OutcomeKeepsOtherEpochs(cfg, w, op, k);
    }
  }

  /**
   Once an epoch is over, its claims and its burn entries never change again: no
   operation touches them, and no challenge accepts one of them.
   */
  lemma {:induction false} PastEpochsAreFrozen(cfg: Config, w: World, ops: seq<Op>, k: Key)
    requires Inv(cfg, w) && k.epoch < w.s.currentEpoch
    ensures SameAt(w.s, Run(cfg, w, ops).s, k)
    ensures TimeOf(w.s, k) <= w.now
    ensures forall c: ChallengeRecord :: c.key == k ==> Challenge(cfg, w.s, w.now, [c]).Reverted?
    decreases |ops|
  {
    forall c: ChallengeRecord | c.key == k ensures Challenge(cfg, w.s, w.now, [c]).Reverted? {
      ChallengeSucceedsIff(cfg, w.s, w.now, [c]);
    }
    if ops != [] {
      ApplyKeepsOtherEpochs(cfg, w, ops[0], k);
      ApplyKeepsInv(cfg, w, ops[0]);
      PastEpochsAreFrozen(cfg, Apply(cfg, w, ops[0]), ops[1..], k);
    }
  }

  // ----- how long a burn can be challenged

  lemma ChallengeOne(cfg: Config, s: State, now: nat, c: ChallengeRecord)
    ensures Challenge(cfg, s, now, [c]).Done? <==>
              && now < TimeOf(s, c.key) && Invalidates(cfg, s, c)
              && cfg.indexValue < U256_SIZE && cfg.indexValue <= s.pendingBurnAmount
  {
    assert [c][..0] == [];
    assert ChallengeLoop(cfg, s, now, []) == Running(s, 0);
    assert ChallengeLoop(cfg, s, now, [c]) == ChallengeStep(cfg, Running(s, 0), now, c);
  }

  lemma BurnOne(cfg: Config, s: State, now: nat, to: Address, r: BurnRecord)
    requires Burn(cfg, s, now, to, [r]).Done?
    ensures var t := Burn(cfg, s, now, to, [r]).state;
            var k := Key(r.index, s.currentEpoch);
            && TimeOf(t, k) == BurnTimeFor(cfg, r)
            && BlobOf(t, k) == Some(r.u)
            && IAddressOf(t, k) == InvalidatorFor(cfg, to, r)
            && cfg.indexValue < U256_SIZE && cfg.indexValue <= t.pendingBurnAmount
  {
    assert [r][..0] == [];
    assert BurnLoop(cfg, s, to, []) == Running(s, 0);
    assert BurnLoop(cfg, s, to, [r]) == BurnStep(cfg, Running(s, 0), to, r);
  }

  /**
   A burn stores a duration and a challenge compares it with the clock. So an entry,
   once burned, can be challenged with its invalidator's signature exactly while the
   clock itself is below the buffer, whenever the burn took place.
   */
  lemma ChallengeableIff(cfg: Config, s: State, now: nat, to: Address, r: BurnRecord, elapsed: nat, sig: Signature)
    requires Burn(cfg, s, now, to, [r]).Done?
    ensures var t := Burn(cfg, s, now, to, [r]).state;
            Challenge(cfg, t, now + elapsed, [ChallengeRecord(Key(r.index, s.currentEpoch), sig)]).Done? <==>
              && now + elapsed < cfg.burnBuffer + (if r.kind == 1 then 3600 else 0)
              && cfg.recover(Invalidating(r.u), sig) == (if r.kind == 1 then to else cfg.owner)
  {
    BurnOne(cfg, s, now, to, r);
    ChallengeOne(cfg, Burn(cfg, s, now, to, [r]).state, now + elapsed,
                 ChallengeRecord(Key(r.index, s.currentEpoch), sig));
  }

  /** Past that point no challenge of anything succeeds, in any run. */
  lemma NoChallengeAfterBuffer(cfg: Config, start: nat, ops: seq<Op>, batch: seq<ChallengeRecord>)
    requires batch != []
    requires Run(cfg, Deployed(start), ops).now >= cfg.burnBuffer + INV_DISADVANTAGE_BUFFER
    ensures var w := Run(cfg, Deployed(start), ops); Challenge(cfg, w.s, w.now, batch).Reverted?
  {
    DeployedInv(cfg, start);
    RunKeepsInv(cfg, Deployed(start), ops);
    var w := Run(cfg, Deployed(start), ops);
    ChallengeSucceedsIff(cfg, w.s, w.now, batch);
    assert ChallengeAccepted(cfg, w.s, w.now, batch) ==> w.now < TimeOf(w.s, batch[0].key);
  }

  /** What burning one record does. */
  lemma BurnAlone(cfg: Config, s: State, now: nat, to: Address, r: BurnRecord)
    ensures Burn(cfg, s, now, to, [r]) ==
            if && BurnWindowOpen(cfg, s, now)
               && !Taken(s, Key(r.index, s.currentEpoch)) && BurnSigned(cfg, s.currentEpoch, to, r)
               && cfg.indexValue < U256_SIZE && s.pendingBurnAmount + cfg.indexValue < U256_SIZE
            then Done(BurnStep(cfg, Running(s, 0), to, r).state.(pendingBurnAmount := s.pendingBurnAmount + cfg.indexValue))
            else Reverted
  {
    assert [r][..0] == [];
    assert BurnLoop(cfg, s, to, []) == Running(s, 0);
    assert BurnLoop(cfg, s, to, [r]) == BurnStep(cfg, Running(s, 0), to, r);
  }

  /** A run to the first epoch's start. */
  lemma FirstEpoch(cfg: Config, start: nat, more: seq<Op>)
    requires start + cfg.epochDuration < U256_SIZE
    ensures var w := Deployed(start);
            Run(cfg, w, [StartEpochOp] + more) ==
              Run(cfg, w.(s := w.s.(currentEpoch := 1, epochExpiresBy := start + cfg.epochDuration)), more)
  {
    RunStep(cfg, Deployed(start), StartEpochOp, more);
  }

  /**
   It happens: in a wallet deployed with the clock past both buffers, a burn in the first
   epoch is refused every challenge, even at once and with the right signature.
   */
  lemma FreshBurnUnchallengeable(cfg: Config, start: nat, to: Address, r: BurnRecord, sig: Signature)
    requires cfg.burnBuffer + INV_DISADVANTAGE_BUFFER <= start
    requires cfg.burnBuffer + INV_DISADVANTAGE_BUFFER < cfg.epochDuration && start + cfg.epochDuration < U256_SIZE
    requires cfg.indexValue < U256_SIZE && BurnSigned(cfg, 1, to, r)
    ensures var w := Run(cfg, Deployed(start), [StartEpochOp] + [BurnOp(to, [r])]);
            && w.now == start && w.s.pendingBurnAmount == cfg.indexValue && Key(r.index, 1) in LiveEntries(w.s)
            && Challenge(cfg, w.s, w.now, [ChallengeRecord(Key(r.index, 1), sig)]).Reverted?
  {
    FirstEpoch(cfg, start, [BurnOp(to, [r])]);
    var w := Deployed(start).(s := Deployed(start).s.(currentEpoch := 1, epochExpiresBy := start + cfg.epochDuration));
    BurnAlone(cfg, w.s, w.now, to, r);
    RunStep(cfg, w, BurnOp(to, [r]), []);
    ChallengeableIff(cfg, w.s, w.now, to, r, 0, sig);
  }

  /**
   With a zero buffer the accounting is not exact: a wallet then burns one index twice in
   its first epoch, and has two index values pending for one entry.
   */
  lemma ZeroBufferBurnsTwice(cfg: Config, start: nat, to: Address, r: BurnRecord)
    requires cfg.burnBuffer == 0 && r.kind != 1
    requires INV_DISADVANTAGE_BUFFER < cfg.epochDuration && start + cfg.epochDuration < U256_SIZE
    requires 2 * cfg.indexValue < U256_SIZE && BurnSigned(cfg, 1, to, r)
    ensures var w := Run(cfg, Deployed(start), [StartEpochOp] + ([BurnOp(to, [r])] + [BurnOp(to, [r])]));
            w.s.pendingBurnAmount == 2 * cfg.indexValue && LiveEntries(w.s) == {Key(r.index, 1)}
  {
    var burn := BurnOp(to, [r]);
    FirstEpoch(cfg, start, [burn] + [burn]);
    var w := Deployed(start).(s := Deployed(start).s.(currentEpoch := 1, epochExpiresBy := start + cfg.epochDuration));
    BurnAlone(cfg, w.s, w.now, to, r);
    var v := Apply(cfg, w, burn);
    assert v.s.pendingBurnAmount == cfg.indexValue && v.s.burnTime == map[Key(r.index, 1) := 0];
    BurnAlone(cfg, v.s, v.now, to, r);
    var u := Apply(cfg, v, burn);
    assert u.s.pendingBurnAmount == 2 * cfg.indexValue && u.s.burnTime == map[Key(r.index, 1) := 0];
    RunStep(cfg, w, burn, [burn]);
    RunStep(cfg, v, burn, []);
    assert LiveEntries(u.s) == {Key(r.index, 1)};
  }

  // ----- the two halves of a type 2 commitment

  /**
   One signature decides a type 2 commitment's fate. A redeem record is signed exactly
   when its commitment can be burned and, once burned, the record's second signature is
   the one that challenges the burn.
   */
  lemma RedeemingSignatureChallenges(cfg: Config, s: State, now: nat, to: Address, r: RedeemRecord, b: BurnRecord, elapsed: nat)
    requires b.index == r.index && b.u == r.u && b.commitSig == r.commitSig && b.kind >= 2
    requires Burn(cfg, s, now, to, [b]).Done? && now + elapsed < cfg.burnBuffer
    ensures RedeemSigned(cfg, s.currentEpoch, to, r) <==>
              var t := Burn(cfg, s, now, to, [b]).state;
              Challenge(cfg, t, now + elapsed,
                        [ChallengeRecord(Key(r.index, s.currentEpoch), r.invalidatingSig)]).Done?
  {
    assert [b][..0] == [];
    assert BurnLoop(cfg, s, to, [b]) == BurnStep(cfg, Running(s, 0), to, b);
    assert BurnSigned(cfg, s.currentEpoch, to, b);
    ChallengeableIff(cfg, s, now, to, b, elapsed, r.invalidatingSig);
  }

  // ----- how long an epoch lasts

  /**
   An epoch opens with the whole balance as its reserves and nothing pending or burning,
   lasts exactly its duration, and takes burns exactly until both buffers before its end.
   */
  lemma EpochLifetime(cfg: Config, w: World, later: nat)
    requires Inv(cfg, w) && StartEpoch(cfg, w.s, w.now).Done? && later >= w.now
    ensures var t := StartEpoch(cfg, w.s, w.now).state;
            && t.reserves == t.balance == w.s.balance - w.s.pendingBurnAmount
            && t.pendingBurnAmount == 0 && LiveEntries(t) == {}
            && t.currentEpoch == w.s.currentEpoch + 1
            && (StartEpoch(cfg, t, later).Done? <==>
                  && later >= w.now + cfg.epochDuration
                  && t.currentEpoch + 1 < U256_SIZE && later + cfg.epochDuration < U256_SIZE)
            && (BurnWindowOpen(cfg, t, later) <==>
                  later + cfg.burnBuffer + INV_DISADVANTAGE_BUFFER < w.now + cfg.epochDuration)
  {}

  /** Within an epoch its end and its opening reserves stay as they are. */
  lemma {:induction false} EpochKeepsItsTerms(cfg: Config, w: World, ops: seq<Op>)
    ensures var v := Run(cfg, w, ops);
            && w.now <= v.now && w.s.currentEpoch <= v.s.currentEpoch
            && (v.s.currentEpoch == w.s.currentEpoch ==>
                  v.s.epochExpiresBy == w.s.epochExpiresBy && v.opening == w.opening)
    decreases |ops|
  {
    if ops != [] {
      ApplyKeepsTerms(cfg, w, ops[0]);
      EpochKeepsItsTerms(cfg, Apply(cfg, w, ops[0]), ops[1..]);
    }
  }

  lemma ApplyKeepsTerms(cfg: Config, w: World, op: Op)
    ensures var v := Apply(cfg, w, op);
            && w.now <= v.now && w.s.currentEpoch <= v.s.currentEpoch
            && (v.s.currentEpoch == w.s.currentEpoch ==>
                  v.s.epochExpiresBy == w.s.epochExpiresBy && v.opening == w.opening)
            && (v.s.currentEpoch != w.s.currentEpoch ==>
                  v.s.epochExpiresBy == w.now + cfg.epochDuration < U256_SIZE)
  {
    match op
    case RedeemOp(to, batch) => RedeemSucceedsIff(cfg, w.s, to, batch);
    case BurnOp(to, batch) =>
      if Burn(cfg, w.s, w.now, to, batch).Done? {
        BurnOutcome(cfg, w, to, batch);
      }
    case ChallengeOp(batch) => ChallengeSucceedsIff(cfg, w.s, w.now, batch);
    case _ =>
  }

  // ----- withdrawals

  ghost predicate WithdrawsInside(cfg: Config, w: World) {
    w.now < w.s.epochExpiresBy && Withdraw(cfg, w.s, w.now, cfg.owner).Done?
  }

  /** What keeps an owner's withdrawal waiting once an epoch has begun at `now`. */
  function UntilWithdrawal(cfg: Config, now: nat): Op {
    Tick(if now < cfg.epochDuration then cfg.epochDuration - now else 0)
  }

  lemma WithdrawsAfterWait(cfg: Config, w: World)
    requires w.s.pendingBurnAmount == 0 && w.s.epochExpiresBy == w.now + cfg.epochDuration
    ensures WithdrawsInside(cfg, Run(cfg, w, [UntilWithdrawal(cfg, w.now)])) <==> w.now > 0 && cfg.epochDuration > 0
  {
    RunStep(cfg, w, UntilWithdrawal(cfg, w.now), []);
  }

  /**
   Withdrawals should wait for the epoch's end, but the guard compares the clock with the
   epoch's duration. Once an epoch has begun they wait, whatever happens in it,
   exactly when it began at time zero or lasts no time.
   */
  lemma WithdrawalsWaitIff(cfg: Config, w: World)
    requires Inv(cfg, w) && StartEpoch(cfg, w.s, w.now).Done?
    ensures var began := Apply(cfg, w, StartEpochOp);
            (forall ops :: var v := Run(cfg, began, ops);
                           v.s.currentEpoch == began.s.currentEpoch ==> !WithdrawsInside(cfg, v))
            <==> w.now == 0 || cfg.epochDuration == 0
  {
    var began := Apply(cfg, w, StartEpochOp);
    StartEpochKeepsInv(cfg, w);
    forall ops | w.now == 0 || cfg.epochDuration == 0
      ensures var v := Run(cfg, began, ops);
              v.s.currentEpoch == began.s.currentEpoch ==> !WithdrawsInside(cfg, v)
    {
      EpochKeepsItsTerms(cfg, began, ops);
    }
    WithdrawsAfterWait(cfg, began);
    RunStep(cfg, began, UntilWithdrawal(cfg, began.now), []);
    assert Run(cfg, began, [UntilWithdrawal(cfg, began.now)]).s.currentEpoch == began.s.currentEpoch;
  }

  lemma {:induction false} EndsAfterStart(cfg: Config, w: World, start: nat, ops: seq<Op>)
    requires Inv(cfg, w) && start <= w.now
    requires w.s.epochExpiresBy == 0 || start + cfg.epochDuration <= w.s.epochExpiresBy < U256_SIZE
    ensures var v := Run(cfg, w, ops);
            && Inv(cfg, v)
            && (v.s.epochExpiresBy == 0 || start + cfg.epochDuration <= v.s.epochExpiresBy < U256_SIZE)
    decreases |ops|
  {
    if ops != [] {
      ApplyKeepsTerms(cfg, w, ops[0]);
      ApplyKeepsInv(cfg, w, ops[0]);
      EndsAfterStart(cfg, Apply(cfg, w, ops[0]), start, ops[1..]);
    }
  }

  /** Open an epoch at a positive time and wait for one duration, if need be. */
  lemma SomeRunWithdrawsInside(cfg: Config, start: nat) returns (ops: seq<Op>)
    requires cfg.epochDuration > 0 && (if start == 0 then 1 else start) + cfg.epochDuration < U256_SIZE
    ensures WithdrawsInside(cfg, Run(cfg, Deployed(start), ops))
  {
    var first := if start == 0 then 1 else start;
    var wait := [UntilWithdrawal(cfg, first)];
    var began := Apply(cfg, Deployed(first), StartEpochOp);
    ops := [Tick(first - start)] + ([StartEpochOp] + wait);
    assert Apply(cfg, Deployed(start), Tick(first - start)) == Deployed(first);
    RunStep(cfg, Deployed(start), Tick(first - start), [StartEpochOp] + wait);
    RunStep(cfg, Deployed(first), StartEpochOp, wait);
    WithdrawsAfterWait(cfg, began);
  }

  /**
   Some run of a deployed wallet withdraws within an active epoch exactly when its epochs
   last some time and one can be opened at a positive time.
   */
  lemma WithdrawsInsideIff(cfg: Config, start: nat)
    ensures (exists ops :: WithdrawsInside(cfg, Run(cfg, Deployed(start), ops)))
            <==> cfg.epochDuration > 0 && (if start == 0 then 1 else start) + cfg.epochDuration < U256_SIZE
  {
    if ops :| WithdrawsInside(cfg, Run(cfg, Deployed(start), ops)) {
      DeployedInv(cfg, start);
      EndsAfterStart(cfg, Deployed(start), start, ops);
    }
    if cfg.epochDuration > 0 && (if start == 0 then 1 else start) + cfg.epochDuration < U256_SIZE {
      var ops := SomeRunWithdrawsInside(cfg, start);
    }
  }

  lemma {:induction false} ClockNeverRunsBack(cfg: Config, w: World, ops: seq<Op>)
    ensures w.now <= Run(cfg, w, ops).now
    decreases |ops|
  {
    if ops != [] {
      ClockNeverRunsBack(cfg, Apply(cfg, w, ops[0]), ops[1..]);
    }
  }

  /**
   In a wallet deployed when the clock is already past one duration the guard stops
   nobody: the owner withdraws at any time of any run, exactly when the pending amount
   is covered.
   */
  lemma WithdrawalsDoNotWait(cfg: Config, start: nat, ops: seq<Op>)
    requires start >= cfg.epochDuration
    ensures var w := Run(cfg, Deployed(start), ops);
            Withdraw(cfg, w.s, w.now, cfg.owner).Done? <==> w.s.pendingBurnAmount <= w.s.balance
  {
    ClockNeverRunsBack(cfg, Deployed(start), ops);
  }
}
