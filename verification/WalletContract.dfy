/**
 The contract as an object whose calls update its storage in place. A call that
 reverts part-way through a batch puts back the storage it started from. Each call is
 proved to be the corresponding function on storage, applied to its decoded call data.
 */
module WalletContract {
  import opened Common
  import opened WalletModel
  import opened Calldata
  import opened WalletBatches
  import opened WalletRuns
  import opened WalletAnswers

  /** One more record, and what a halt means for the rest of the batch. */
  lemma RedeemNext(cfg: Config, s: State, to: Address, batch: seq<RedeemRecord>, i: nat)
    requires i < |batch|
    ensures RedeemLoop(cfg, s, to, batch[..i + 1]) == RedeemStep(cfg, RedeemLoop(cfg, s, to, batch[..i]), to, batch[i])
    ensures RedeemLoop(cfg, s, to, batch[..i + 1]).Halted? ==> RedeemLoop(cfg, s, to, batch).Halted?
  {
    assert batch[..i + 1][..i] == batch[..i];
    assert batch == batch[..i + 1] + batch[i + 1..];
    RedeemLoopConcat(cfg, s, to, batch[..i + 1], batch[i + 1..]);
  }

  lemma BurnNext(cfg: Config, s: State, to: Address, batch: seq<BurnRecord>, i: nat)
    requires i < |batch|
    ensures BurnLoop(cfg, s, to, batch[..i + 1]) == BurnStep(cfg, BurnLoop(cfg, s, to, batch[..i]), to, batch[i])
    ensures BurnLoop(cfg, s, to, batch[..i + 1]).Halted? ==> BurnLoop(cfg, s, to, batch).Halted?
  {
    assert batch[..i + 1][..i] == batch[..i];
    assert batch == batch[..i + 1] + batch[i + 1..];
    BurnLoopConcat(cfg, s, to, batch[..i + 1], batch[i + 1..]);
  }

  lemma {:induction false} ChallengeHaltsForGood(cfg: Config, s: State, now: nat, batch: seq<ChallengeRecord>, i: nat)
    requires i <= |batch| && ChallengeLoop(cfg, s, now, batch[..i]).Halted?
    ensures ChallengeLoop(cfg, s, now, batch).Halted?
    decreases |batch|
  {
    if i < |batch| {
      assert batch[..|batch| - 1][..i] == batch[..i];
      ChallengeHaltsForGood(cfg, s, now, batch[..|batch| - 1], i);
    } else {
      assert batch[..i] == batch;
    }
  }

  lemma ChallengeNext(cfg: Config, s: State, now: nat, batch: seq<ChallengeRecord>, i: nat)
    requires i < |batch|
    ensures ChallengeLoop(cfg, s, now, batch[..i + 1]) ==
            ChallengeStep(cfg, ChallengeLoop(cfg, s, now, batch[..i]), now, batch[i])
    ensures ChallengeLoop(cfg, s, now, batch[..i + 1]).Halted? ==> ChallengeLoop(cfg, s, now, batch).Halted?
  {
    assert batch[..i + 1][..i] == batch[..i];
    if ChallengeLoop(cfg, s, now, batch[..i + 1]).Halted? {
      ChallengeHaltsForGood(cfg, s, now, batch, i + 1);
    }
  }

  function ChallengeBatch(hashes: seq<Key>, v: seq<nat>, r: seq<nat>, s: seq<nat>): seq<ChallengeRecord>
    requires |hashes| == |v| == |r| == |s|
  {
    seq(|hashes|, i requires 0 <= i < |hashes| => ChallengeRecord(hashes[i], Signature(r[i], s[i], v[i])))
  }

  /** The n-th of each list make one challenge: entry, and r, s and v of its signature. */
  lemma {:induction false} ChallengeCallExactly(cfg: Config, st: State, now: nat, hashes: seq<Key>, v: seq<nat>, r: seq<nat>, s: seq<nat>)
    requires |hashes| == |v| == |r| == |s|
    ensures Challenge(cfg, st, now, ChallengeBatch(hashes, v, r, s)).Done? <==>
              && Distinct(hashes)
              && (forall i :: 0 <= i < |hashes| ==>
                    && hashes[i] in st.burnTime && now < st.burnTime[hashes[i]] && hashes[i] in st.burnBlob
                    && cfg.recover(Invalidating(st.burnBlob[hashes[i]]), Signature(r[i], s[i], v[i]))
                       == (if hashes[i] in st.burnIAddress then st.burnIAddress[hashes[i]] else 0))
              && cfg.indexValue * |hashes| < U256_SIZE && cfg.indexValue * |hashes| <= st.pendingBurnAmount
  {
    var batch := ChallengeBatch(hashes, v, r, s);
    ChallengeSucceedsExactly(cfg, st, now, batch);
    assert forall i :: 0 <= i < |hashes| ==> batch[i] == ChallengeRecord(hashes[i], Signature(r[i], s[i], v[i]));
    assert forall i, j :: 0 <= i < j < |batch| ==> (batch[i].key != batch[j].key <==> hashes[i] != hashes[j]);
    if forall i :: 0 <= i < |batch| ==> Challengeable(cfg, st, now, batch[i]) {
      assert forall i :: 0 <= i < |hashes| ==> Challengeable(cfg, st, now, batch[i]);
    }
  }

  class Wallet {
    const cfg: Config
    var claimed: set<Key>
    var burnBufferTime: map<Key, nat>
    var burnBufferIBlob: map<Key, nat>
    var burnBufferIAddress: map<Key, Address>
    var currentEpoch: nat
    var epochExpiresBy: nat
    var reserves: nat
    var pendingBurnAmount: nat
    var balance: nat

    function Storage(): State
      reads this
    {
      State(claimed, burnBufferTime, burnBufferIBlob, burnBufferIAddress,
            currentEpoch, epochExpiresBy, reserves, pendingBurnAmount, balance)
    }

    constructor (cfg: Config)
      ensures this.cfg == cfg && Storage() == Deployed(0).s
    {
      this.cfg := cfg;
      claimed := {};
      burnBufferTime, burnBufferIBlob, burnBufferIAddress := map[], map[], map[];
      currentEpoch, epochExpiresBy, reserves, pendingBurnAmount, balance := 0, 0, 0, 0, 0;
    }

    /** Puts back a storage, as a revert does. */
    method Restore(saved: State)
      modifies this
      ensures Storage() == saved
    {
      claimed := saved.claimed;
      burnBufferTime := saved.burnTime;
      burnBufferIBlob := saved.burnBlob;
      burnBufferIAddress := saved.burnIAddress;
      currentEpoch := saved.currentEpoch;
      epochExpiresBy := saved.epochExpiresBy;
      reserves := saved.reserves;
      pendingBurnAmount := saved.pendingBurnAmount;
      balance := saved.balance;
    }

    /** The token's transfer out of the wallet, which reverts on a short balance. */
    method Transfer(amount: nat) returns (ok: bool)
      modifies this`balance
      ensures ok == (amount <= old(balance))
      ensures balance == if ok then old(balance) - amount else old(balance)
    {
      ok := amount <= balance;
      if ok {
        balance := balance - amount;
      }
    }

    method BurnPendingAmount() returns (ok: bool)
      modifies this
      ensures BurnPending(old(Storage())) == if ok then Done(Storage()) else Reverted
      ensures !ok ==> Storage() == old(Storage())
    {
      ok := true;
      var pending := pendingBurnAmount;
      if pending != 0 {
        ok := Transfer(pending);
        if ok {
          pendingBurnAmount := 0;
        }
      }
    }

    method StartEpoch(now: nat) returns (ok: bool)
      modifies this
      ensures WalletModel.StartEpoch(cfg, old(Storage()), now) == if ok then Done(Storage()) else Reverted
      ensures !ok ==> Storage() == old(Storage())
    {
      if now < epochExpiresBy {
        return false;
      }
      var saved := Storage();
      ok := BurnPendingAmount();
      if !ok {
        return;
      }
      reserves := balance;
      if currentEpoch + 1 >= U256_SIZE || now + cfg.epochDuration >= U256_SIZE {
        Restore(saved);
        return false;
      }
      currentEpoch := currentEpoch + 1;
      epochExpiresBy := now + cfg.epochDuration;
    }

    method Withdraw(now: nat, sender: Address) returns (ok: bool)
      modifies this
      ensures WalletModel.Withdraw(cfg, old(Storage()), now, sender) == if ok then Done(Storage()) else Reverted
      ensures !ok ==> Storage() == old(Storage())
    {
      if sender != cfg.owner || now < cfg.epochDuration {
        return false;
      }
      ok := BurnPendingAmount();
      if ok {
        ok := Transfer(balance);
        reserves := 0;
      }
    }

    /** The body of the redeem loop; false is the revert it meets. */
    method ClaimOne(to: Address, r: RedeemRecord, total: nat) returns (ok: bool, newTotal: nat)
      modifies this`claimed
      ensures RedeemStep(cfg, Running(old(Storage()), total), to, r) == if ok then Running(Storage(), newTotal) else Halted
    {
      newTotal := total;
      var claim := Key(r.index, currentEpoch);
      if Taken(Storage(), claim) || !RedeemSigned(cfg, currentEpoch, to, r) {
        return false, newTotal;
      }
      if total + cfg.indexValue >= U256_SIZE {
        return false, newTotal;
      }
      newTotal := total + cfg.indexValue;
      claimed := claimed + {claim};
      ok := true;
    }

    method RedeemdType2(data: seq<byte>) returns (ok: bool)
      modifies this
      ensures Redeem(cfg, old(Storage()), RecipientOf(data), RedeemBatch(data)) == if ok then Done(Storage()) else Reverted
      ensures !ok ==> Storage() == old(Storage())
    {
      var saved := Storage();
      var count, to := CountOf(data), RecipientOf(data);
      var totalAmount: nat := 0;
      ghost var batch := RedeemBatch(data);
      var i := 0;
      while i < count
        invariant i <= count == |batch|
        invariant RedeemLoop(cfg, saved, to, batch[..i]) == Running(Storage(), totalAmount)
      {
        RedeemNext(cfg, saved, to, batch, i);
        ok, totalAmount := ClaimOne(to, RedeemRecordAt(data, i), totalAmount);
        if !ok {
          Restore(saved);
          return;
        }
        i := i + 1;
      }
      assert batch[..i] == batch;
      ok := Transfer(totalAmount);
      if !ok {
        Restore(saved);
      }
    }

    /** The body of the burn loop, writing in the contract's order. */
    method BurnOne(to: Address, r: BurnRecord, total: nat) returns (ok: bool, newTotal: nat)
      modifies this`burnBufferTime, this`burnBufferIBlob, this`burnBufferIAddress
      ensures BurnStep(cfg, Running(old(Storage()), total), to, r) == if ok then Running(Storage(), newTotal) else Halted
    {
      newTotal := total;
      var claim := Key(r.index, currentEpoch);
      if Taken(Storage(), claim) {
        return false, newTotal;
      }
      burnBufferIAddress := burnBufferIAddress[claim := InvalidatorFor(cfg, to, r)];
      if !BurnSigned(cfg, currentEpoch, to, r) {
        return false, newTotal;
      }
      burnBufferTime := burnBufferTime[claim := BurnTimeFor(cfg, r)];
      burnBufferIBlob := burnBufferIBlob[claim := r.u];
      if total + cfg.indexValue >= U256_SIZE {
        return false, newTotal;
      }
      newTotal := total + cfg.indexValue;
      ok := true;
    }

    /** What follows the burn loop: its total becomes pending. */
    method AddPending(totalBurn: nat) returns (ok: bool)
      modifies this`pendingBurnAmount
      ensures ok <==> old(pendingBurnAmount) + totalBurn < U256_SIZE
      ensures Storage() == if ok then old(Storage()).(pendingBurnAmount := old(pendingBurnAmount) + totalBurn) else old(Storage())
    {
      ok := pendingBurnAmount + totalBurn < U256_SIZE;
      if ok {
        pendingBurnAmount := pendingBurnAmount + totalBurn;
      }
    }

    method BurnCommits(now: nat, data: seq<byte>) returns (ok: bool)
      modifies this
      ensures Burn(cfg, old(Storage()), now, RecipientOf(data), BurnBatch(data)) == if ok then Done(Storage()) else Reverted
      ensures !ok ==> Storage() == old(Storage())
    {
      var saved := Storage();
      if !BurnWindowOpen(cfg, saved, now) {
        return false;
      }
      var count, to := CountOf(data), RecipientOf(data);
      var totalBurn: nat := 0;
      ghost var batch := BurnBatch(data);
      var i := 0;
      while i < count
        invariant i <= count == |batch|
        invariant BurnLoop(cfg, saved, to, batch[..i]) == Running(Storage(), totalBurn)
      {
        BurnNext(cfg, saved, to, batch, i);
        ok, totalBurn := BurnOne(to, BurnRecordAt(data, i), totalBurn);
        if !ok {
          Restore(saved);
          return;
        }
        i := i + 1;
      }
      assert batch[..i] == batch;
      ok := AddPending(totalBurn);
      if !ok {
        Restore(saved);
      }
    }

    /** The body of the challenge loop. */
    method ChallengeOne(now: nat, c: ChallengeRecord, total: nat) returns (ok: bool, newTotal: nat)
      modifies this`burnBufferTime, this`burnBufferIBlob, this`burnBufferIAddress
      ensures ChallengeStep(cfg, Running(old(Storage()), total), now, c) == if ok then Running(Storage(), newTotal) else Halted
    {
      newTotal := total;
      if TimeOf(Storage(), c.key) <= now || !Invalidates(cfg, Storage(), c) {
        return false, newTotal;
      }
      burnBufferTime := burnBufferTime - {c.key};
      burnBufferIBlob := burnBufferIBlob - {c.key};
      burnBufferIAddress := burnBufferIAddress - {c.key};
      if total + cfg.indexValue >= U256_SIZE {
        return false, newTotal;
      }
      newTotal := total + cfg.indexValue;
      ok := true;
    }

    method ChallengeBurnCommits(now: nat, hashes: seq<Key>, v: seq<nat>, r: seq<nat>, s: seq<nat>) returns (ok: bool)
      modifies this
      ensures !(|hashes| == |v| == |r| == |s|) ==> !ok
      ensures |hashes| == |v| == |r| == |s| ==>
                Challenge(cfg, old(Storage()), now, ChallengeBatch(hashes, v, r, s)) ==
                  if ok then Done(Storage()) else Reverted
      ensures !ok ==> Storage() == old(Storage())
    {
      if |hashes| != |v| || |v| != |r| || |v| != |s| {
        return false;
      }
      var saved := Storage();
      var totalBurn: nat := 0;
      ghost var batch := ChallengeBatch(hashes, v, r, s);
      var i := 0;
      while i < |hashes|
        invariant i <= |hashes| == |batch|
        invariant ChallengeLoop(cfg, saved, now, batch[..i]) == Running(Storage(), totalBurn)
      {
        ChallengeNext(cfg, saved, now, batch, i);
        ok, totalBurn := ChallengeOne(now, ChallengeRecord(hashes[i], Signature(r[i], s[i], v[i])), totalBurn);
        if !ok {
          Restore(saved);
          return;
        }
        i := i + 1;
      }
      assert batch[..i] == batch;
      if pendingBurnAmount < totalBurn {
        Restore(saved);
        return false;
      }
      pendingBurnAmount := pendingBurnAmount - totalBurn;
      ok := true;
    }
  }
}
