/**
 What the calls answer, in terms of the storage and of recovered signatures alone, and
 what that means over runs: nothing is claimed, burned or withdrawn without the owner.
 */
module WalletAnswers {
  import opened Common
  import opened WalletModel
  import opened WalletBatches
  import opened WalletRuns
  import opened WalletEpochs

  // ----- redeeming

  /** Neither claimed nor with a time in the burn buffer. */
  ghost predicate Free(s: State, k: Key) {
    k !in s.claimed && (k in s.burnTime ==> s.burnTime[k] == 0)
  }

  /** The owner signed the payment to the recipient, and then its invalidation. */
  ghost predicate Paid(cfg: Config, k: Key, u: nat, to: Address, commitSig: Signature, invalidatingSig: Signature) {
    && cfg.recover(TypeTwo(k.index, k.epoch, u, cfg.owner, to), commitSig) == cfg.owner
    && cfg.recover(Invalidating(u), invalidatingSig) == cfg.owner
  }

  /**
   A redemption succeeds exactly for different indexes that are neither claimed nor
   burning, each with the owner's signature on a type 2 commitment to the recipient and
   on its invalidation, and with the funds to pay them all. It claims these indexes of the
   current epoch, pays an index value for each, and changes nothing else.
   */
  lemma RedeemSucceedsExactly(cfg: Config, s: State, to: Address, batch: seq<RedeemRecord>)
    ensures Redeem(cfg, s, to, batch).Done? <==>
              && (forall i, j :: 0 <= i < j < |batch| ==> batch[i].index != batch[j].index)
              && (forall i :: 0 <= i < |batch| ==>
                    var r, k := batch[i], Key(batch[i].index, s.currentEpoch);
                    Free(s, k) && Paid(cfg, k, r.u, to, r.commitSig, r.invalidatingSig))
              && cfg.indexValue * |batch| < U256_SIZE && cfg.indexValue * |batch| <= s.balance
    ensures Redeem(cfg, s, to, batch).Done? ==>
              Redeem(cfg, s, to, batch).state ==
                s.(claimed := s.claimed + (set r | r in batch :: Key(r.index, s.currentEpoch)),
                   balance := s.balance - cfg.indexValue * |batch|)
  {
    RedeemSucceedsIff(cfg, s, to, batch);
    RedeemKeysElements(s.currentEpoch, batch);
    var keys := RedeemKeys(s.currentEpoch, batch);
    assert forall i, j :: 0 <= i < j < |batch| ==> (keys[i] != keys[j] <==> batch[i].index != batch[j].index);
  }

  // ----- burning

  /** The commitment that a burn record of a kind must carry the owner's signature on. */
  ghost predicate Committed(cfg: Config, k: Key, kind: nat, u: nat, to: Address, sig: Signature) {
    && (kind == 0 ==> cfg.recover(TypeOne(k.index, k.epoch, u, cfg.owner), sig) == cfg.owner)
    && (kind == 1 ==> cfg.recover(TypeOne(k.index, k.epoch, u, to), sig) == cfg.owner)
    && (kind >= 2 ==> cfg.recover(TypeTwo(k.index, k.epoch, u, cfg.owner, to), sig) == cfg.owner)
  }

  /** What is stored for it: the recipient is the invalidator of kind 1 only, and is given an hour more. */
  ghost predicate Stored(cfg: Config, t: State, k: Key, kind: nat, u: nat, to: Address) {
    && k in t.burnTime && t.burnTime[k] == (if kind == 1 then cfg.burnBuffer + 3600 else cfg.burnBuffer)
    && k in t.burnBlob && t.burnBlob[k] == u
    && k in t.burnIAddress && t.burnIAddress[k] == (if kind == 1 then to else cfg.owner)
  }

  lemma {:induction false} BatchStored(cfg: Config, s: State, to: Address, batch: seq<BurnRecord>, i: nat)
    requires Distinct(BurnKeys(s.currentEpoch, batch)) && i < |batch|
    ensures Stored(cfg, AfterBurnLoop(cfg, s, to, batch), Key(batch[i].index, s.currentEpoch), batch[i].kind, batch[i].u, to)
    decreases |batch|
  {
    var n := |batch| - 1;
    var keys := BurnKeys(s.currentEpoch, batch);
    AfterBurnLoopSnoc(cfg, s, to, batch);
    if i < n {
      BurnKeysSnoc(s.currentEpoch, batch);
      assert keys[i] != keys[n];
      assert Distinct(BurnKeys(s.currentEpoch, batch[..n])) by {
        assert BurnKeys(s.currentEpoch, batch[..n]) == keys[..n];
      }
      BatchStored(cfg, s, to, batch[..n], i);
    }
  }

  /**
   With a positive buffer a burn succeeds exactly before both buffers remain of the epoch,
   for different indexes that are neither claimed nor burning, each with the owner's
   signature on the commitment of its kind, and within the word range.
   */
  lemma BurnSucceedsExactly(cfg: Config, s: State, now: nat, to: Address, batch: seq<BurnRecord>)
    requires cfg.burnBuffer > 0
    ensures Burn(cfg, s, now, to, batch).Done? <==>
              && now + cfg.burnBuffer + 3600 < s.epochExpiresBy && cfg.burnBuffer + 3600 < U256_SIZE
              && (forall i, j :: 0 <= i < j < |batch| ==> batch[i].index != batch[j].index)
              && (forall i :: 0 <= i < |batch| ==>
                    var r, k := batch[i], Key(batch[i].index, s.currentEpoch);
                    Free(s, k) && Committed(cfg, k, r.kind, r.u, to, r.commitSig))
              && cfg.indexValue * |batch| < U256_SIZE
              && s.pendingBurnAmount + cfg.indexValue * |batch| < U256_SIZE
  {
    BurnSucceedsIff(cfg, s, now, to, batch);
    var keys := BurnKeys(s.currentEpoch, batch);
    assert forall i, j :: 0 <= i < j < |batch| ==> (keys[i] != keys[j] <==> batch[i].index != batch[j].index);
  }

  lemma OthersKept(cfg: Config, s: State, to: Address, batch: seq<BurnRecord>, k: Key)
    requires forall i :: 0 <= i < |batch| ==> k != Key(batch[i].index, s.currentEpoch)
    ensures SameAt(s, AfterBurnLoop(cfg, s, to, batch), k)
  {
    BurnMapsDomain(cfg, s.currentEpoch, to, batch);
    assert k !in Elements(BurnKeys(s.currentEpoch, batch));
  }

  /** It stores exactly the batch's entries, adds their value to the pending amount, and changes nothing else. */
  lemma {:induction false} BurnStoresExactly(cfg: Config, s: State, now: nat, to: Address, batch: seq<BurnRecord>)
    requires cfg.burnBuffer > 0 && Burn(cfg, s, now, to, batch).Done?
    ensures var t := Burn(cfg, s, now, to, batch).state;
            && t == s.(burnTime := t.burnTime, burnBlob := t.burnBlob, burnIAddress := t.burnIAddress,
                       pendingBurnAmount := s.pendingBurnAmount + cfg.indexValue * |batch|)
            && (forall i :: 0 <= i < |batch| ==>
                  Stored(cfg, t, Key(batch[i].index, s.currentEpoch), batch[i].kind, batch[i].u, to))
            && (forall k :: (forall i :: 0 <= i < |batch| ==> k != Key(batch[i].index, s.currentEpoch)) ==> SameAt(s, t, k))
  {
    BurnSucceedsIff(cfg, s, now, to, batch);
    var u := AfterBurnLoop(cfg, s, to, batch);
    var t := u.(pendingBurnAmount := s.pendingBurnAmount + cfg.indexValue * |batch|);
    forall i | 0 <= i < |batch|
      ensures Stored(cfg, t, Key(batch[i].index, s.currentEpoch), batch[i].kind, batch[i].u, to)
    {
      BatchStored(cfg, s, to, batch, i);
      assert Stored(cfg, u, Key(batch[i].index, s.currentEpoch), batch[i].kind, batch[i].u, to);
    }
    forall k | forall i :: 0 <= i < |batch| ==> k != Key(batch[i].index, s.currentEpoch) ensures SameAt(s, t, k) {
      OthersKept(cfg, s, to, batch, k);
    }
  }

  // ----- challenging

  /** The recorded invalidator signed the recorded number; an absent address is zero. */
  ghost predicate Challengeable(cfg: Config, s: State, now: nat, c: ChallengeRecord) {
    && c.key in s.burnTime && now < s.burnTime[c.key] && c.key in s.burnBlob
    && cfg.recover(Invalidating(s.burnBlob[c.key]), c.sig) == (if c.key in s.burnIAddress then s.burnIAddress[c.key] else 0)
  }

  lemma ChallengeKeysRead(batch: seq<ChallengeRecord>)
    ensures Distinct(ChallengeKeys(batch)) <==> forall i, j :: 0 <= i < j < |batch| ==> batch[i].key != batch[j].key
    ensures Elements(ChallengeKeys(batch)) == set c | c in batch :: c.key
  {
    var keys := ChallengeKeys(batch);
    assert forall i, j :: 0 <= i < j < |batch| ==> (keys[i] != keys[j] <==> batch[i].key != batch[j].key);
    forall c | c in batch ensures c.key in keys {
      var i :| 0 <= i < |batch| && batch[i] == c;
      assert keys[i] == c.key;
    }
  }

  /** A challenge succeeds exactly for different entries still ahead of the clock, and removes those. */
  lemma ChallengeSucceedsExactly(cfg: Config, s: State, now: nat, batch: seq<ChallengeRecord>)
    ensures Challenge(cfg, s, now, batch).Done? <==>
              && (forall i, j :: 0 <= i < j < |batch| ==> batch[i].key != batch[j].key)
              && (forall i :: 0 <= i < |batch| ==> Challengeable(cfg, s, now, batch[i]))
              && cfg.indexValue * |batch| < U256_SIZE && cfg.indexValue * |batch| <= s.pendingBurnAmount
    ensures Challenge(cfg, s, now, batch).Done? ==>
              var keys := set c | c in batch :: c.key;
              Challenge(cfg, s, now, batch).state ==
                s.(burnTime := s.burnTime - keys, burnBlob := s.burnBlob - keys, burnIAddress := s.burnIAddress - keys,
                   pendingBurnAmount := s.pendingBurnAmount - cfg.indexValue * |batch|)
  {
    ChallengeSucceedsIff(cfg, s, now, batch);
    ChallengeKeysRead(batch);
    assert forall c: ChallengeRecord :: now < TimeOf(s, c.key) && Invalidates(cfg, s, c) <==> Challengeable(cfg, s, now, c);
  }

  // ----- over runs

  /** Some recipient was paid by the owner's two signatures. */
  ghost predicate ClaimBacked(cfg: Config, k: Key) {
    exists u, to, commitSig, invalidatingSig :: Paid(cfg, k, u, to, commitSig, invalidatingSig)
  }

  /** The owner signed a commitment of some kind that stores what is stored. */
  ghost predicate EntryBacked(cfg: Config, s: State, k: Key) {
    exists kind, u, to, sig :: Committed(cfg, k, kind, u, to, sig) && Stored(cfg, s, k, kind, u, to)
  }

  ghost predicate AllBacked(cfg: Config, s: State) {
    (forall k :: k in s.claimed ==> ClaimBacked(cfg, k)) && (forall k :: k in s.burnTime ==> EntryBacked(cfg, s, k))
  }

  lemma RedeemKeepsBacking(cfg: Config, s: State, to: Address, batch: seq<RedeemRecord>)
    requires AllBacked(cfg, s) && Redeem(cfg, s, to, batch).Done?
    ensures AllBacked(cfg, Redeem(cfg, s, to, batch).state)
  {
    RedeemSucceedsExactly(cfg, s, to, batch);
    var t := Redeem(cfg, s, to, batch).state;
    forall k | k in t.claimed && k !in s.claimed ensures ClaimBacked(cfg, k) {
      var r :| r in batch && k == Key(r.index, s.currentEpoch);
      var i :| 0 <= i < |batch| && batch[i] == r;
      assert Paid(cfg, k, r.u, to, r.commitSig, r.invalidatingSig);
    }
    forall k | k in t.burnTime ensures EntryBacked(cfg, t, k) {
      EntryKept(cfg, s, t, k);
    }
  }

  lemma EntryKept(cfg: Config, s: State, t: State, k: Key)
    requires EntryBacked(cfg, s, k) && k in t.burnTime && k in t.burnBlob && k in t.burnIAddress
    requires k in s.burnTime && k in s.burnBlob && k in s.burnIAddress
    requires t.burnTime[k] == s.burnTime[k] && t.burnBlob[k] == s.burnBlob[k] && t.burnIAddress[k] == s.burnIAddress[k]
    ensures EntryBacked(cfg, t, k)
  {
    var kind, u, to, sig :| Committed(cfg, k, kind, u, to, sig) && Stored(cfg, s, k, kind, u, to);
    assert Stored(cfg, t, k, kind, u, to);
  }

  lemma BurnStepKeepsBacking(cfg: Config, s: State, total: nat, to: Address, r: BurnRecord)
    requires AllBacked(cfg, s)
    ensures var p := BurnStep(cfg, Running(s, total), to, r); p.Running? ==> AllBacked(cfg, p.state)
  {
    var p := BurnStep(cfg, Running(s, total), to, r);
    if p.Running? {
      var at := Key(r.index, s.currentEpoch);
      forall k | k in p.state.burnTime ensures EntryBacked(cfg, p.state, k) {
        if k == at {
          assert Committed(cfg, k, r.kind, r.u, to, r.commitSig) && Stored(cfg, p.state, k, r.kind, r.u, to);
        } else {
          EntryKept(cfg, s, p.state, k);
        }
      }
    }
  }

  /** Also with a zero buffer. */
  lemma {:induction false} BurnLoopKeepsBacking(cfg: Config, s: State, to: Address, batch: seq<BurnRecord>)
    requires AllBacked(cfg, s)
    ensures var p := BurnLoop(cfg, s, to, batch); p.Running? ==> AllBacked(cfg, p.state)
  {
    if batch != [] {
      var n := |batch| - 1;
      BurnLoopKeepsBacking(cfg, s, to, batch[..n]);
      var p := BurnLoop(cfg, s, to, batch[..n]);
      if p.Running? {
        BurnStepKeepsBacking(cfg, p.state, p.total, to, batch[n]);
      }
    }
  }

  lemma BurnKeepsBacking(cfg: Config, s: State, now: nat, to: Address, batch: seq<BurnRecord>)
    requires AllBacked(cfg, s) && Burn(cfg, s, now, to, batch).Done?
    ensures AllBacked(cfg, Burn(cfg, s, now, to, batch).state)
  {
    BurnLoopKeepsBacking(cfg, s, to, batch);
    var t := BurnLoop(cfg, s, to, batch).state;
    var u := Burn(cfg, s, now, to, batch).state;
    forall k | k in u.burnTime ensures EntryBacked(cfg, u, k) {
      EntryKept(cfg, t, u, k);
    }
  }

  lemma ChallengeKeepsBacking(cfg: Config, s: State, now: nat, batch: seq<ChallengeRecord>)
    requires AllBacked(cfg, s) && Challenge(cfg, s, now, batch).Done?
    ensures AllBacked(cfg, Challenge(cfg, s, now, batch).state)
  {
    ChallengeSucceedsExactly(cfg, s, now, batch);
    var t := Challenge(cfg, s, now, batch).state;
    forall k | k in t.burnTime ensures EntryBacked(cfg, t, k) {
      assert EntryBacked(cfg, s, k);
      EntryKept(cfg, s, t, k);
    }
  }

  lemma OutcomeKeepsBacking(cfg: Config, w: World, op: Op)
    requires AllBacked(cfg, w.s) && OutcomeOf(cfg, w, op).Done?
    ensures AllBacked(cfg, OutcomeOf(cfg, w, op).state)
  {
    match op
    case RedeemOp(to, batch) => RedeemKeepsBacking(cfg, w.s, to, batch);
    case BurnOp(to, batch) => BurnKeepsBacking(cfg, w.s, w.now, to, batch);
    case ChallengeOp(batch) => ChallengeKeepsBacking(cfg, w.s, w.now, batch);
    case _ =>
      var t := OutcomeOf(cfg, w, op).state;
      forall k | k in t.burnTime ensures EntryBacked(cfg, t, k) {
        EntryKept(cfg, w.s, t, k);
      }
  }

  lemma {:induction false} RunKeepsBacking(cfg: Config, w: World, ops: seq<Op>)
    requires AllBacked(cfg, w.s)
    ensures AllBacked(cfg, Run(cfg, w, ops).s)
    decreases |ops|
  {
    if ops != [] {
      if OutcomeOf(cfg, w, ops[0]).Done? {
        OutcomeKeepsBacking(cfg, w, ops[0]);
      }
      RunKeepsBacking(cfg, Apply(cfg, w, ops[0]), ops[1..]);
    }
  }

  /**
   In every run of a deployed wallet, with any buffer: every claimed index carries the
   owner's signature on a type 2 commitment of it for that epoch and on its invalidation,
   and every burn entry the owner's signature on a commitment of it of the kind whose time
   and invalidator are stored.
   */
  lemma NothingWithoutTheOwner(cfg: Config, start: nat, ops: seq<Op>)
    ensures var s := Run(cfg, Deployed(start), ops).s;
            && (forall k :: k in s.claimed ==> ClaimBacked(cfg, k))
            && (forall k :: k in s.burnTime ==> EntryBacked(cfg, s, k))
  {
    RunKeepsBacking(cfg, Deployed(start), ops);
  }

  // ----- withdrawals

  lemma StrangerTakesNothing(cfg: Config, w: World, op: Op)
    requires op != WithdrawOp(cfg.owner)
    ensures var v := Apply(cfg, w, op);
            && v.withdrawn == w.withdrawn && v.settled in {0, w.settled}
            && (v.s.currentEpoch == w.s.currentEpoch ==> v.settled == w.settled && v.s.reserves == w.s.reserves)
  {
    match op
    case RedeemOp(to, batch) =>
      if Redeem(cfg, w.s, to, batch).Done? {
        RedeemEffect(cfg, w, to, batch);
      }
    case BurnOp(to, batch) =>
      if Burn(cfg, w.s, w.now, to, batch).Done? {
        BurnOutcome(cfg, w, to, batch);
      }
    case ChallengeOp(batch) =>
      if Challenge(cfg, w.s, w.now, batch).Done? {
        ChallengeEffect(cfg, w, batch);
      }
    case _ =>
  }

  /**
   Only the owner withdraws: any other sender is refused, and in a run without an owner's
   withdrawal nothing is withdrawn, and within an epoch the reserves stay and nothing
   pending is settled.
   */
  lemma {:induction false} OnlyTheOwnerWithdraws(cfg: Config, w: World, ops: seq<Op>, stranger: Address)
    requires forall i :: 0 <= i < |ops| ==> ops[i] != WithdrawOp(cfg.owner)
    ensures stranger != cfg.owner ==> Withdraw(cfg, w.s, w.now, stranger).Reverted?
    ensures var v := Run(cfg, w, ops);
            && v.withdrawn == w.withdrawn && v.settled in {0, w.settled}
            && (v.s.currentEpoch == w.s.currentEpoch ==> v.settled == w.settled && v.s.reserves == w.s.reserves)
    decreases |ops|
  {
    if ops != [] {
      var v := Apply(cfg, w, ops[0]);
      StrangerTakesNothing(cfg, w, ops[0]);
      ApplyKeepsTerms(cfg, w, ops[0]);
      EpochKeepsItsTerms(cfg, v, ops[1..]);
      OnlyTheOwnerWithdraws(cfg, v, ops[1..], stranger);
    }
  }
}
