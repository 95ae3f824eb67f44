/**
 What a whole batch does. Each loop of the contract is compared with one closed
 form: the conditions on the storage the batch starts from, and the storage it
 leaves. Splitting, reordering and undoing a batch then follow.
 */
module WalletBatches {
  import opened Common
  import opened WalletModel

  function RedeemKeys(epoch: nat, batch: seq<RedeemRecord>): seq<Key> {
    seq(|batch|, i requires 0 <= i < |batch| => Key(batch[i].index, epoch))
  }

  function BurnKeys(epoch: nat, batch: seq<BurnRecord>): seq<Key> {
    seq(|batch|, i requires 0 <= i < |batch| => Key(batch[i].index, epoch))
  }

  function ChallengeKeys(batch: seq<ChallengeRecord>): seq<Key> {
    seq(|batch|, i requires 0 <= i < |batch| => batch[i].key)
  }

  function Then(o: Outcome, next: State -> Outcome): Outcome {
    match o
    case Reverted => Reverted
    case Done(t) => next(t)
  }

  /** A loop continued by another whose total starts from zero. */
  function Continue(total: nat, p: Progress): Progress {
    match p
    case Halted => Halted
    case Running(s, more) => if total + more >= U256_SIZE then Halted else Running(s, total + more)
  }

  lemma ValueOfSum(cfg: Config, a: nat, b: nat)
    ensures cfg.indexValue * (a + b) == cfg.indexValue * a + cfg.indexValue * b
  {}

  // ----- redeeming

  ghost predicate RedeemAccepted(cfg: Config, s: State, to: Address, batch: seq<RedeemRecord>) {
    && Distinct(RedeemKeys(s.currentEpoch, batch))
    && (forall i :: 0 <= i < |batch| ==>
          !Taken(s, Key(batch[i].index, s.currentEpoch)) && RedeemSigned(cfg, s.currentEpoch, to, batch[i]))
    && cfg.indexValue * |batch| < U256_SIZE
  }

  function AfterRedeemLoop(s: State, keys: seq<Key>): State {
    s.(claimed := s.claimed + Elements(keys))
  }

  lemma RedeemKeysSnoc(e: nat, batch: seq<RedeemRecord>)
    requires batch != []
    ensures var n := |batch| - 1;
            RedeemKeys(e, batch) == RedeemKeys(e, batch[..n]) + [Key(batch[n].index, e)]
  {}

  lemma RedeemAcceptedSnoc(cfg: Config, s: State, to: Address, batch: seq<RedeemRecord>)
    requires batch != []
    ensures var n := |batch| - 1;
            var k := Key(batch[n].index, s.currentEpoch);
            RedeemAccepted(cfg, s, to, batch) <==>
              && RedeemAccepted(cfg, s, to, batch[..n])
              && !Taken(s, k) && k !in Elements(RedeemKeys(s.currentEpoch, batch[..n]))
              && RedeemSigned(cfg, s.currentEpoch, to, batch[n])
              && cfg.indexValue * n + cfg.indexValue < U256_SIZE
  {
    var n := |batch| - 1;
    RedeemKeysSnoc(s.currentEpoch, batch);
    ElementsSnoc(RedeemKeys(s.currentEpoch, batch[..n]), Key(batch[n].index, s.currentEpoch));
    assert cfg.indexValue * |batch| == cfg.indexValue * n + cfg.indexValue;
  }

  /** What the loop comes to: the batch's keys and value, or a halt. */
  ghost function RedeemResult(cfg: Config, s: State, to: Address, batch: seq<RedeemRecord>): Progress {
    if RedeemAccepted(cfg, s, to, batch)
    then Running(AfterRedeemLoop(s, RedeemKeys(s.currentEpoch, batch)), cfg.indexValue * |batch|)
    else Halted
  }

  lemma {:induction false} RedeemResultStep(cfg: Config, s: State, p: Progress, to: Address, batch: seq<RedeemRecord>)
    requires batch != [] && p == RedeemResult(cfg, s, to, batch[..|batch| - 1])
    ensures RedeemStep(cfg, p, to, batch[|batch| - 1]) == RedeemResult(cfg, s, to, batch)
  {
    var n := |batch| - 1;
    RedeemKeysSnoc(s.currentEpoch, batch);
    ElementsSnoc(RedeemKeys(s.currentEpoch, batch[..n]), Key(batch[n].index, s.currentEpoch));
    RedeemAcceptedSnoc(cfg, s, to, batch);
    assert cfg.indexValue * |batch| == cfg.indexValue * n + cfg.indexValue;
  }

  lemma {:induction false} RedeemLoopClosedForm(cfg: Config, s: State, to: Address, batch: seq<RedeemRecord>)
    ensures RedeemLoop(cfg, s, to, batch) == RedeemResult(cfg, s, to, batch)
  {
    if batch != [] {
      var front := batch[..|batch| - 1];
      RedeemLoopClosedForm(cfg, s, to, front);
      RedeemResultStep(cfg, s, RedeemLoop(cfg, s, to, front), to, batch);
    }
  }

  /**
   A redemption succeeds exactly when the indexes of the batch are distinct, none is
   claimed or burning, every record is signed, and the balance covers the total. It
   then claims exactly the keys of the batch and pays for exactly that many.
   */
  lemma {:induction false} RedeemSucceedsIff(cfg: Config, s: State, to: Address, batch: seq<RedeemRecord>)
    ensures Redeem(cfg, s, to, batch) ==
            if RedeemAccepted(cfg, s, to, batch) && cfg.indexValue * |batch| <= s.balance
            then Done(s.(claimed := s.claimed + Elements(RedeemKeys(s.currentEpoch, batch)),
                         balance := s.balance - cfg.indexValue * |batch|))
            else Reverted
  {
    RedeemLoopClosedForm(cfg, s, to, batch);
  }

  lemma {:induction false} RedeemLoopConcat(cfg: Config, s: State, to: Address, a: seq<RedeemRecord>, b: seq<RedeemRecord>)
    ensures RedeemLoop(cfg, s, to, a + b) ==
            match RedeemLoop(cfg, s, to, a)
            case Halted => Halted
            case Running(t, total) => Continue(total, RedeemLoop(cfg, t, to, b))
    decreases |b|
  {
    if b == [] {
      assert a + b == a;
      RedeemLoopClosedForm(cfg, s, to, a);
    } else {
      assert (a + b)[..|a + b| - 1] == a + b[..|b| - 1];
      RedeemLoopConcat(cfg, s, to, a, b[..|b| - 1]);
    }
  }

  /** The claim loop neither reads nor writes the balance. */
  lemma {:induction false} RedeemLoopIgnoresBalance(cfg: Config, s: State, to: Address, batch: seq<RedeemRecord>, x: nat)
    ensures RedeemLoop(cfg, s.(balance := x), to, batch) ==
            match RedeemLoop(cfg, s, to, batch)
            case Halted => Halted
            case Running(t, total) => Running(t.(balance := x), total)
    ensures RedeemLoop(cfg, s, to, batch).Running? ==> RedeemLoop(cfg, s, to, batch).state.balance == s.balance
  {
    if batch != [] {
      RedeemLoopIgnoresBalance(cfg, s, to, batch[..|batch| - 1], x);
    }
  }

  /** The second loop on the balance that the first part leaves. */
  lemma {:induction false} RedeemRest(cfg: Config, t: State, to: Address, b: seq<RedeemRecord>, total: nat)
    requires total <= t.balance < U256_SIZE
    ensures Redeem(cfg, t.(balance := t.balance - total), to, b) ==
            match Continue(total, RedeemLoop(cfg, t, to, b))
            case Halted => Reverted
            case Running(u, sum) => if u.balance < sum then Reverted else Done(u.(balance := u.balance - sum))
  {
    RedeemLoopIgnoresBalance(cfg, t, to, b, t.balance - total);
  }

  lemma {:induction false} RedeemTooMuch(cfg: Config, t: State, to: Address, b: seq<RedeemRecord>, total: nat)
    requires t.balance < total
    ensures match Continue(total, RedeemLoop(cfg, t, to, b))
            case Halted => true
            case Running(u, sum) => u.balance < sum
  {
    RedeemLoopIgnoresBalance(cfg, t, to, b, 0);
  }

  /**
   One batch or two: redeeming a concatenation is redeeming its parts in sequence,
   with the same verdict and the same final storage.
   */
  lemma {:induction false} RedeemSplits(cfg: Config, s: State, to: Address, a: seq<RedeemRecord>, b: seq<RedeemRecord>)
    requires s.balance < U256_SIZE
    ensures Redeem(cfg, s, to, a + b) == Then(Redeem(cfg, s, to, a), t => Redeem(cfg, t, to, b))
  {
    RedeemLoopConcat(cfg, s, to, a, b);
    match RedeemLoop(cfg, s, to, a)
    case Halted =>
    case Running(t, total) =>
      RedeemLoopIgnoresBalance(cfg, s, to, a, 0);
      if total <= t.balance {
        RedeemRest(cfg, t, to, b, total);
      } else {
        RedeemTooMuch(cfg, t, to, b, total);
      }
  }

  lemma AcceptedInAnyOrder(cfg: Config, s: State, to: Address, a: seq<RedeemRecord>, b: seq<RedeemRecord>)
    requires RedeemAccepted(cfg, s, to, a)
    requires |a| == |b| && forall i :: 0 <= i < |b| ==> b[i] in a
    requires Elements(RedeemKeys(s.currentEpoch, a)) == Elements(RedeemKeys(s.currentEpoch, b))
    ensures RedeemAccepted(cfg, s, to, b)
  {
    DistinctIffFullSize(RedeemKeys(s.currentEpoch, a));
    DistinctIffFullSize(RedeemKeys(s.currentEpoch, b));
    forall i | 0 <= i < |b|
      ensures !Taken(s, Key(b[i].index, s.currentEpoch)) && RedeemSigned(cfg, s.currentEpoch, to, b[i])
    {
      var j :| 0 <= j < |a| && a[j] == b[i];
    }
  }

  /** The order of a batch does not matter. */
  lemma {:induction false} RedeemIsOrderFree(cfg: Config, s: State, to: Address, a: seq<RedeemRecord>, b: seq<RedeemRecord>)
    requires multiset(a) == multiset(b)
    ensures Redeem(cfg, s, to, a) == Redeem(cfg, s, to, b)
  {
    var e := s.currentEpoch;
    RedeemSucceedsIff(cfg, s, to, a);
    RedeemSucceedsIff(cfg, s, to, b);
    forall r ensures r in a <==> r in b {
      assert r in multiset(a) <==> r in multiset(b);
    }
    assert |a| == |multiset(a)| == |multiset(b)| == |b|;
    RedeemKeysElements(e, a);
    RedeemKeysElements(e, b);
    assert Elements(RedeemKeys(e, a)) == Elements(RedeemKeys(e, b));
    if RedeemAccepted(cfg, s, to, a) {
      AcceptedInAnyOrder(cfg, s, to, a, b);
    } else if RedeemAccepted(cfg, s, to, b) {
      AcceptedInAnyOrder(cfg, s, to, b, a);
    }
  }

  lemma RedeemKeysElements(e: nat, a: seq<RedeemRecord>)
    ensures Elements(RedeemKeys(e, a)) == set r | r in a :: Key(r.index, e)
  {
    forall r | r in a ensures Key(r.index, e) in RedeemKeys(e, a) {
      var i :| 0 <= i < |a| && a[i] == r;
      assert RedeemKeys(e, a)[i] == Key(r.index, e);
    }
  }

  // ----- burning

  ghost predicate BurnAccepted(cfg: Config, s: State, to: Address, batch: seq<BurnRecord>) {
    && Distinct(BurnKeys(s.currentEpoch, batch))
    && (forall i :: 0 <= i < |batch| ==>
          !Taken(s, Key(batch[i].index, s.currentEpoch)) && BurnSigned(cfg, s.currentEpoch, to, batch[i]))
    && cfg.indexValue * |batch| < U256_SIZE
  }

  /** The entries a batch writes, one map for each of the three mappings. */
  function BurnTimes(cfg: Config, e: nat, batch: seq<BurnRecord>): map<Key, nat> {
    if batch == [] then map[]
    else
      var r := batch[|batch| - 1];
      BurnTimes(cfg, e, batch[..|batch| - 1])[Key(r.index, e) := BurnTimeFor(cfg, r)]
  }

  function BurnBlobs(e: nat, batch: seq<BurnRecord>): map<Key, nat> {
    if batch == [] then map[]
    else
      var r := batch[|batch| - 1];
      BurnBlobs(e, batch[..|batch| - 1])[Key(r.index, e) := r.u]
  }

  function BurnInvalidators(cfg: Config, e: nat, to: Address, batch: seq<BurnRecord>): map<Key, Address> {
    if batch == [] then map[]
    else
      var r := batch[|batch| - 1];
      BurnInvalidators(cfg, e, to, batch[..|batch| - 1])[Key(r.index, e) := InvalidatorFor(cfg, to, r)]
  }

  lemma BurnKeysSnoc(e: nat, batch: seq<BurnRecord>)
    requires batch != []
    ensures var n := |batch| - 1;
            BurnKeys(e, batch) == BurnKeys(e, batch[..n]) + [Key(batch[n].index, e)]
  {}

  lemma {:induction false} BurnMapsDomain(cfg: Config, e: nat, to: Address, batch: seq<BurnRecord>)
    ensures BurnTimes(cfg, e, batch).Keys == Elements(BurnKeys(e, batch))
    ensures BurnBlobs(e, batch).Keys == Elements(BurnKeys(e, batch))
    ensures BurnInvalidators(cfg, e, to, batch).Keys == Elements(BurnKeys(e, batch))
    ensures forall k :: k in BurnTimes(cfg, e, batch) ==>
              cfg.burnBuffer <= BurnTimes(cfg, e, batch)[k] <= cfg.burnBuffer + INV_DISADVANTAGE_BUFFER
  {
    if batch != [] {
      var n := |batch| - 1;
      BurnMapsDomain(cfg, e, to, batch[..n]);
      BurnKeysSnoc(e, batch);
      ElementsSnoc(BurnKeys(e, batch[..n]), Key(batch[n].index, e));
    }
  }

  function AfterBurnLoop(cfg: Config, s: State, to: Address, batch: seq<BurnRecord>): State {
    s.(burnTime := s.burnTime + BurnTimes(cfg, s.currentEpoch, batch),
       burnBlob := s.burnBlob + BurnBlobs(s.currentEpoch, batch),
       burnIAddress := s.burnIAddress + BurnInvalidators(cfg, s.currentEpoch, to, batch))
  }

  lemma AfterBurnLoopSnoc(cfg: Config, s: State, to: Address, batch: seq<BurnRecord>)
    requires batch != []
    ensures var n := |batch| - 1;
            var k := Key(batch[n].index, s.currentEpoch);
            var t := AfterBurnLoop(cfg, s, to, batch[..n]);
            AfterBurnLoop(cfg, s, to, batch) ==
              t.(burnTime := t.burnTime[k := BurnTimeFor(cfg, batch[n])],
                 burnBlob := t.burnBlob[k := batch[n].u],
                 burnIAddress := t.burnIAddress[k := InvalidatorFor(cfg, to, batch[n])])
  {
    var n, e := |batch| - 1, s.currentEpoch;
    var r := batch[n];
    var k := Key(r.index, e);
    UpdateAfterMerge(s.burnTime, BurnTimes(cfg, e, batch[..n]), k, BurnTimeFor(cfg, r));
    UpdateAfterMerge(s.burnBlob, BurnBlobs(e, batch[..n]), k, r.u);
    UpdateAfterMerge(s.burnIAddress, BurnInvalidators(cfg, e, to, batch[..n]), k, InvalidatorFor(cfg, to, r));
  }

  lemma AfterBurnLoopTaken(cfg: Config, s: State, to: Address, batch: seq<BurnRecord>, k: Key)
    requires cfg.burnBuffer > 0
    ensures Taken(AfterBurnLoop(cfg, s, to, batch), k) <==>
              Taken(s, k) || k in Elements(BurnKeys(s.currentEpoch, batch))
  {
    BurnMapsDomain(cfg, s.currentEpoch, to, batch);
  }

  lemma BurnAcceptedSnoc(cfg: Config, s: State, to: Address, batch: seq<BurnRecord>)
    requires batch != []
    ensures var n := |batch| - 1;
            var k := Key(batch[n].index, s.currentEpoch);
            BurnAccepted(cfg, s, to, batch) <==>
              && BurnAccepted(cfg, s, to, batch[..n])
              && !Taken(s, k) && k !in Elements(BurnKeys(s.currentEpoch, batch[..n]))
              && BurnSigned(cfg, s.currentEpoch, to, batch[n])
              && cfg.indexValue * n + cfg.indexValue < U256_SIZE
  {
    var n := |batch| - 1;
    BurnKeysSnoc(s.currentEpoch, batch);
    ElementsSnoc(BurnKeys(s.currentEpoch, batch[..n]), Key(batch[n].index, s.currentEpoch));
    assert cfg.indexValue * |batch| == cfg.indexValue * n + cfg.indexValue;
  }

  lemma AfterNoBurn(cfg: Config, s: State, to: Address)
    ensures AfterBurnLoop(cfg, s, to, []) == s
  {}

  /** What the loop comes to: the batch's entries and value, or a halt. */
  ghost function BurnResult(cfg: Config, s: State, to: Address, batch: seq<BurnRecord>): Progress {
    if BurnAccepted(cfg, s, to, batch)
    then Running(AfterBurnLoop(cfg, s, to, batch), cfg.indexValue * |batch|)
    else Halted
  }

  lemma {:induction false} BurnStepAccepted(cfg: Config, s: State, total: nat, to: Address, batch: seq<BurnRecord>)
    requires cfg.burnBuffer > 0 && batch != []
    requires BurnAccepted(cfg, s, to, batch[..|batch| - 1]) && total == cfg.indexValue * (|batch| - 1)
    ensures var n := |batch| - 1;
            BurnStep(cfg, Running(AfterBurnLoop(cfg, s, to, batch[..n]), total), to, batch[n]) ==
            if BurnAccepted(cfg, s, to, batch)
            then Running(AfterBurnLoop(cfg, s, to, batch), total + cfg.indexValue)
            else Halted
  {
    var n := |batch| - 1;
    BurnAcceptedSnoc(cfg, s, to, batch);
    AfterBurnLoopSnoc(cfg, s, to, batch);
    AfterBurnLoopTaken(cfg, s, to, batch[..n], Key(batch[n].index, s.currentEpoch));
  }

  lemma {:induction false} BurnResultStep(cfg: Config, s: State, p: Progress, to: Address, batch: seq<BurnRecord>)
    requires cfg.burnBuffer > 0 && batch != [] && p == BurnResult(cfg, s, to, batch[..|batch| - 1])
    ensures BurnStep(cfg, p, to, batch[|batch| - 1]) == BurnResult(cfg, s, to, batch)
  {
    match p
    case Running(t, total) =>
      BurnStepAccepted(cfg, s, total, to, batch);
      assert total + cfg.indexValue == cfg.indexValue * |batch|;
    case Halted => BurnAcceptedSnoc(cfg, s, to, batch);
  }

  lemma {:induction false} BurnLoopClosedForm(cfg: Config, s: State, to: Address, batch: seq<BurnRecord>)
    requires cfg.burnBuffer > 0
    ensures BurnLoop(cfg, s, to, batch) == BurnResult(cfg, s, to, batch)
  {
    if batch == [] {
      AfterNoBurn(cfg, s, to);
    } else {
      var front := batch[..|batch| - 1];
      BurnLoopClosedForm(cfg, s, to, front);
      BurnResultStep(cfg, s, BurnLoop(cfg, s, to, front), to, batch);
    }
  }

  /**
   A burn succeeds exactly when its window is open, the indexes are distinct, none is
   claimed or burning, and every record is signed (and the pending sum fits a word).
   It then adds exactly those entries and that many index values.
   */
  lemma {:induction false} BurnSucceedsIff(cfg: Config, s: State, now: nat, to: Address, batch: seq<BurnRecord>)
    requires cfg.burnBuffer > 0
    ensures Burn(cfg, s, now, to, batch) ==
            if && BurnWindowOpen(cfg, s, now)
               && BurnAccepted(cfg, s, to, batch)
               && s.pendingBurnAmount + cfg.indexValue * |batch| < U256_SIZE
            then Done(AfterBurnLoop(cfg, s, to, batch)
                      .(pendingBurnAmount := s.pendingBurnAmount + cfg.indexValue * |batch|))
            else Reverted
  {
    BurnLoopClosedForm(cfg, s, to, batch);
  }

  lemma {:induction false} BurnLoopTotal(cfg: Config, s: State, to: Address, batch: seq<BurnRecord>)
    ensures var p := BurnLoop(cfg, s, to, batch);
            p.Running? ==> p.total < U256_SIZE && p.state.pendingBurnAmount == s.pendingBurnAmount
                           && p.state.epochExpiresBy == s.epochExpiresBy
  {
    if batch != [] {
      BurnLoopTotal(cfg, s, to, batch[..|batch| - 1]);
    }
  }

  lemma {:induction false} BurnLoopConcat(cfg: Config, s: State, to: Address, a: seq<BurnRecord>, b: seq<BurnRecord>)
    ensures BurnLoop(cfg, s, to, a + b) ==
            match BurnLoop(cfg, s, to, a)
            case Halted => Halted
            case Running(t, total) => Continue(total, BurnLoop(cfg, t, to, b))
    decreases |b|
  {
    if b == [] {
      assert a + b == a;
      BurnLoopTotal(cfg, s, to, a);
    } else {
      assert (a + b)[..|a + b| - 1] == a + b[..|b| - 1];
      BurnLoopConcat(cfg, s, to, a, b[..|b| - 1]);
    }
  }

  /** The burn loop neither reads nor writes the pending amount. */
  lemma {:induction false} BurnLoopIgnoresPending(cfg: Config, s: State, to: Address, batch: seq<BurnRecord>, x: nat)
    ensures BurnLoop(cfg, s.(pendingBurnAmount := x), to, batch) ==
            match BurnLoop(cfg, s, to, batch)
            case Halted => Halted
            case Running(t, total) => Running(t.(pendingBurnAmount := x), total)
  {
    if batch != [] {
      BurnLoopIgnoresPending(cfg, s, to, batch[..|batch| - 1], x);
    }
  }

  /** The second loop on the pending amount that the first part leaves. */
  lemma {:induction false} BurnRest(cfg: Config, t: State, now: nat, to: Address, b: seq<BurnRecord>, total: nat)
    requires BurnWindowOpen(cfg, t, now) && t.pendingBurnAmount + total < U256_SIZE
    ensures Burn(cfg, t.(pendingBurnAmount := t.pendingBurnAmount + total), now, to, b) ==
            match Continue(total, BurnLoop(cfg, t, to, b))
            case Halted => Reverted
            case Running(u, sum) =>
              if u.pendingBurnAmount + sum >= U256_SIZE then Reverted
              else Done(u.(pendingBurnAmount := u.pendingBurnAmount + sum))
  {
    BurnLoopIgnoresPending(cfg, t, to, b, t.pendingBurnAmount + total);
    BurnLoopTotal(cfg, t, to, b);
  }

  lemma {:induction false} BurnTooMuch(cfg: Config, t: State, to: Address, b: seq<BurnRecord>, total: nat)
    requires t.pendingBurnAmount + total >= U256_SIZE
    ensures match Continue(total, BurnLoop(cfg, t, to, b))
            case Halted => true
            case Running(u, sum) => u.pendingBurnAmount + sum >= U256_SIZE
  {
    BurnLoopTotal(cfg, t, to, b);
  }

  /** Burning a concatenation is burning its parts in sequence at the same time. */
  lemma {:induction false} BurnSplits(cfg: Config, s: State, now: nat, to: Address, a: seq<BurnRecord>, b: seq<BurnRecord>)
    ensures Burn(cfg, s, now, to, a + b) == Then(Burn(cfg, s, now, to, a), t => Burn(cfg, t, now, to, b))
  {
    if BurnWindowOpen(cfg, s, now) {
      BurnLoopConcat(cfg, s, to, a, b);
      BurnLoopTotal(cfg, s, to, a);
      match BurnLoop(cfg, s, to, a)
      case Halted =>
      case Running(t, total) =>
        if t.pendingBurnAmount + total < U256_SIZE {
          BurnRest(cfg, t, now, to, b, total);
        } else {
          BurnTooMuch(cfg, t, to, b, total);
        }
    }
  }

  /**
   The check that an index is not already burning rests on a positive stored time.
   After one record has been burnt, the same record is accepted again at the same
   time exactly when the time it stored is zero (and the pending sum still fits).
   */
  lemma ReburnAcceptedIff(cfg: Config, s: State, now: nat, to: Address, r: BurnRecord)
    requires Burn(cfg, s, now, to, [r]).Done?
    ensures var t := Burn(cfg, s, now, to, [r]).state;
            Burn(cfg, t, now, to, [r]).Done? <==>
              cfg.burnBuffer == 0 && r.kind != 1 && t.pendingBurnAmount + cfg.indexValue < U256_SIZE
  {
    assert [r][..0] == [];
    assert BurnLoop(cfg, s, to, []) == Running(s, 0);
    assert BurnLoop(cfg, s, to, [r]) == BurnStep(cfg, Running(s, 0), to, r);
    var t := Burn(cfg, s, now, to, [r]).state;
    assert BurnLoop(cfg, t, to, []) == Running(t, 0);
    assert BurnLoop(cfg, t, to, [r]) == BurnStep(cfg, Running(t, 0), to, r);
  }

  // ----- challenging

  ghost predicate ChallengeAccepted(cfg: Config, s: State, now: nat, batch: seq<ChallengeRecord>) {
    && Distinct(ChallengeKeys(batch))
    && (forall i :: 0 <= i < |batch| ==> now < TimeOf(s, batch[i].key) && Invalidates(cfg, s, batch[i]))
    && cfg.indexValue * |batch| < U256_SIZE
  }

  function AfterChallengeLoop(s: State, keys: set<Key>): State {
    s.(burnTime := s.burnTime - keys, burnBlob := s.burnBlob - keys, burnIAddress := s.burnIAddress - keys)
  }

  lemma ChallengeAcceptedSnoc(cfg: Config, s: State, now: nat, batch: seq<ChallengeRecord>)
    requires batch != []
    ensures var n := |batch| - 1;
            var c := batch[n];
            var front := Elements(ChallengeKeys(batch[..n]));
            && Elements(ChallengeKeys(batch)) == front + {c.key}
            && (ChallengeAccepted(cfg, s, now, batch) <==>
                  && ChallengeAccepted(cfg, s, now, batch[..n])
                  && now < TimeOf(s, c.key) && c.key !in front
                  && Invalidates(cfg, s, c)
                  && cfg.indexValue * n + cfg.indexValue < U256_SIZE)
  {
    var n := |batch| - 1;
    assert ChallengeKeys(batch) == ChallengeKeys(batch[..n]) + [batch[n].key];
    ElementsSnoc(ChallengeKeys(batch[..n]), batch[n].key);
    assert cfg.indexValue * |batch| == cfg.indexValue * n + cfg.indexValue;
  }

  /** Entries outside the removed keys are untouched, so their checks are too. */
  lemma AfterChallengeReads(cfg: Config, s: State, keys: set<Key>, c: ChallengeRecord)
    ensures TimeOf(AfterChallengeLoop(s, keys), c.key) == if c.key in keys then 0 else TimeOf(s, c.key)
    ensures c.key !in keys ==> (Invalidates(cfg, AfterChallengeLoop(s, keys), c) <==> Invalidates(cfg, s, c))
    ensures var t := AfterChallengeLoop(s, keys);
            AfterChallengeLoop(t, {c.key}) == AfterChallengeLoop(s, keys + {c.key})
  {
    var t := AfterChallengeLoop(s, keys);
    assert t.burnTime - {c.key} == s.burnTime - (keys + {c.key});
    assert t.burnBlob - {c.key} == s.burnBlob - (keys + {c.key});
    assert t.burnIAddress - {c.key} == s.burnIAddress - (keys + {c.key});
  }

  lemma {:induction false} ChallengeLoopClosedForm(cfg: Config, s: State, now: nat, batch: seq<ChallengeRecord>)
    ensures ChallengeLoop(cfg, s, now, batch) ==
            if ChallengeAccepted(cfg, s, now, batch)
            then Running(AfterChallengeLoop(s, Elements(ChallengeKeys(batch))), cfg.indexValue * |batch|)
            else Halted
  {
    if batch == [] {
      assert AfterChallengeLoop(s, {}) == s;
      assert Elements(ChallengeKeys(batch)) == {};
    } else {
      var n := |batch| - 1;
      ChallengeLoopClosedForm(cfg, s, now, batch[..n]);
      ChallengeAcceptedSnoc(cfg, s, now, batch);
      AfterChallengeReads(cfg, s, Elements(ChallengeKeys(batch[..n])), batch[n]);
      assert cfg.indexValue * |batch| == cfg.indexValue * n + cfg.indexValue;
    }
  }

  /**
   A challenge succeeds exactly when its keys are distinct, every entry's stored time
   is still ahead of the clock, every signature is the recorded invalidator's, and the
   pending amount covers the batch. It removes exactly those entries. A key given
   twice therefore always reverts.
   */
  lemma {:induction false} ChallengeSucceedsIff(cfg: Config, s: State, now: nat, batch: seq<ChallengeRecord>)
    ensures Challenge(cfg, s, now, batch) ==
            if ChallengeAccepted(cfg, s, now, batch) && cfg.indexValue * |batch| <= s.pendingBurnAmount
            then Done(AfterChallengeLoop(s, Elements(ChallengeKeys(batch)))
                      .(pendingBurnAmount := s.pendingBurnAmount - cfg.indexValue * |batch|))
            else Reverted
  {
    ChallengeLoopClosedForm(cfg, s, now, batch);
  }

  /** The three burn mappings share their keys, and no stored time is zero. */
  ghost predicate BurnMapsAgree(s: State) {
    && s.burnBlob.Keys == s.burnTime.Keys
    && s.burnIAddress.Keys == s.burnTime.Keys
    && (forall k :: k in s.burnTime ==> s.burnTime[k] != 0)
  }

  lemma RemoveAdded(cfg: Config, s: State, to: Address, batch: seq<BurnRecord>)
    requires BurnMapsAgree(s)
    requires s.burnTime.Keys !! Elements(BurnKeys(s.currentEpoch, batch))
    ensures forall p :: AfterChallengeLoop(AfterBurnLoop(cfg, s, to, batch).(pendingBurnAmount := p),
                                           Elements(BurnKeys(s.currentEpoch, batch)))
                        .(pendingBurnAmount := s.pendingBurnAmount) == s
  {
    var e := s.currentEpoch;
    var keys := Elements(BurnKeys(e, batch));
    BurnMapsDomain(cfg, e, to, batch);
    assert (s.burnTime + BurnTimes(cfg, e, batch)) - keys == s.burnTime;
    assert (s.burnBlob + BurnBlobs(e, batch)) - keys == s.burnBlob;
    assert (s.burnIAddress + BurnInvalidators(cfg, e, to, batch)) - keys == s.burnIAddress;
  }

  lemma SameKeysSameSize(e: nat, batch: seq<BurnRecord>, challenge: seq<ChallengeRecord>)
    requires Distinct(BurnKeys(e, batch)) && Distinct(ChallengeKeys(challenge))
    requires Elements(ChallengeKeys(challenge)) == Elements(BurnKeys(e, batch))
    ensures |batch| == |challenge|
  {
    DistinctIffFullSize(BurnKeys(e, batch));
    DistinctIffFullSize(ChallengeKeys(challenge));
  }

  lemma FreshKeys(cfg: Config, s: State, to: Address, batch: seq<BurnRecord>)
    requires BurnMapsAgree(s) && BurnAccepted(cfg, s, to, batch)
    ensures s.burnTime.Keys !! Elements(BurnKeys(s.currentEpoch, batch))
    ensures s.claimed !! Elements(BurnKeys(s.currentEpoch, batch))
  {
    forall k | k in BurnKeys(s.currentEpoch, batch) ensures !Taken(s, k) {
      var i :| 0 <= i < |batch| && k == Key(batch[i].index, s.currentEpoch);
    }
  }

  /** The storage after the burn, less the challenged entries and their value. */
  lemma UndoneBurn(cfg: Config, s: State, t: State, to: Address, batch: seq<BurnRecord>, challenge: seq<ChallengeRecord>)
    requires BurnMapsAgree(s) && BurnAccepted(cfg, s, to, batch) && Distinct(ChallengeKeys(challenge))
    requires Elements(ChallengeKeys(challenge)) == Elements(BurnKeys(s.currentEpoch, batch))
    requires t == AfterBurnLoop(cfg, s, to, batch).(pendingBurnAmount := s.pendingBurnAmount + cfg.indexValue * |batch|)
    ensures |challenge| == |batch| && cfg.indexValue * |challenge| <= t.pendingBurnAmount
    ensures AfterChallengeLoop(t, Elements(ChallengeKeys(challenge)))
            .(pendingBurnAmount := t.pendingBurnAmount - cfg.indexValue * |challenge|) == s
  {
    SameKeysSameSize(s.currentEpoch, batch, challenge);
    FreshKeys(cfg, s, to, batch);
    RemoveAdded(cfg, s, to, batch);
  }

  /**
   Burning a batch and then challenging exactly its entries, in any order and at any
   time at which those entries can be challenged, is the identity on the storage.
   */
  lemma {:induction false} ChallengeUndoesBurn(cfg: Config, s: State, now: nat, to: Address, batch: seq<BurnRecord>,
                            later: nat, challenge: seq<ChallengeRecord>)
    requires cfg.burnBuffer > 0 && BurnMapsAgree(s)
    requires Burn(cfg, s, now, to, batch).Done?
    requires Elements(ChallengeKeys(challenge)) == Elements(BurnKeys(s.currentEpoch, batch))
    ensures var t := Burn(cfg, s, now, to, batch).state;
            Challenge(cfg, t, later, challenge) ==
              if ChallengeAccepted(cfg, t, later, challenge) then Done(s) else Reverted
  {
    BurnSucceedsIff(cfg, s, now, to, batch);
    var t := Burn(cfg, s, now, to, batch).state;
    ChallengeSucceedsIff(cfg, t, later, challenge);
    if ChallengeAccepted(cfg, t, later, challenge) {
      UndoneBurn(cfg, s, t, to, batch, challenge);
    }
  }
}
