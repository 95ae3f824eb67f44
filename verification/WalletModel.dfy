/**
 The time-locked wallet contract as functions on its storage.

 Every operation takes the storage as the transaction finds it and gives either
 the storage it leaves or a revert. Amounts, times and counters are 256-bit words
 under checked arithmetic: an addition or a subtraction that leaves the word range
 reverts. A claim identifier is the (index, epoch) pair that the contract hashes,
 and signature recovery is the parameter `recover`.
 */
module WalletModel {
  import opened Common

  /** The buffer added when the owner is not the invalidating address: one hour. */
  const INV_DISADVANTAGE_BUFFER: nat := 3600

  datatype Signature = Signature(r: nat, s: nat, v: nat)

  /** What an owner signs. The packed encodings have different lengths. */
  datatype Message =
    | TypeOne(index: nat, epoch: nat, u: nat, iAddress: Address)
    | TypeTwo(index: nat, epoch: nat, u: nat, iAddress: Address, recipient: Address)
    | Invalidating(u: nat)

  datatype Key = Key(index: nat, epoch: nat)

  /** The immutables, the owner, and the recovery function. */
  datatype Config = Config(
    epochDuration: nat,
    indexValue: nat,
    burnBuffer: nat,
    owner: Address,
    recover: (Message, Signature) -> Address
  )

  /** The mutable storage, with the wallet's balance at the currency token. */
  datatype State = State(
    claimed: set<Key>,
    burnTime: map<Key, nat>,
    burnBlob: map<Key, nat>,
    burnIAddress: map<Key, Address>,
    currentEpoch: nat,
    epochExpiresBy: nat,
    reserves: nat,
    pendingBurnAmount: nat,
    balance: nat
  )

  datatype Outcome = Done(state: State) | Reverted

  /** A loop over a batch: still running with its total so far, or reverted. */
  datatype Progress = Running(state: State, total: nat) | Halted

  datatype RedeemRecord = RedeemRecord(index: nat, u: nat, commitSig: Signature, invalidatingSig: Signature)

  datatype BurnRecord = BurnRecord(index: nat, u: nat, kind: nat, commitSig: Signature)

  datatype ChallengeRecord = ChallengeRecord(key: Key, sig: Signature)

  /** A mapping read: absent keys hold zero. */
  function TimeOf(s: State, k: Key): nat {
    if k in s.burnTime then s.burnTime[k] else 0
  }

  function BlobOf(s: State, k: Key): Option<nat> {
    if k in s.burnBlob then Some(s.burnBlob[k]) else None
  }

  function IAddressOf(s: State, k: Key): Address {
    if k in s.burnIAddress then s.burnIAddress[k] else 0
  }

  predicate Taken(s: State, k: Key) {
    TimeOf(s, k) != 0 || k in s.claimed
  }

  // ----- epochs and settlement

  /** Sends the pending amount to the zero address; a zero amount sends nothing. */
  function BurnPending(s: State): Outcome {
    if s.pendingBurnAmount == 0 then Done(s)
    else if s.balance < s.pendingBurnAmount then Reverted
    else Done(s.(balance := s.balance - s.pendingBurnAmount, pendingBurnAmount := 0))
  }

  function StartEpoch(cfg: Config, s: State, now: nat): Outcome {
    if now < s.epochExpiresBy then Reverted
    else match BurnPending(s)
      case Reverted => Reverted
      case Done(t) =>
        if t.currentEpoch + 1 >= U256_SIZE || now + cfg.epochDuration >= U256_SIZE then Reverted
        else Done(t.(reserves := t.balance,
                     currentEpoch := t.currentEpoch + 1,
                     epochExpiresBy := now + cfg.epochDuration))
  }

  /** The guard compares the clock with the epoch's duration, as the contract does. */
  function Withdraw(cfg: Config, s: State, now: nat, sender: Address): Outcome {
    if sender != cfg.owner then Reverted
    else if now < cfg.epochDuration then Reverted
    else match BurnPending(s)
      case Reverted => Reverted
      case Done(t) => Done(t.(balance := 0, reserves := 0))
  }

  // ----- redeeming

  predicate RedeemSigned(cfg: Config, epoch: nat, to: Address, r: RedeemRecord) {
    && cfg.recover(TypeTwo(r.index, epoch, r.u, cfg.owner, to), r.commitSig) == cfg.owner
    && cfg.recover(Invalidating(r.u), r.invalidatingSig) == cfg.owner
  }

  function RedeemStep(cfg: Config, p: Progress, to: Address, r: RedeemRecord): Progress {
    match p
    case Halted => Halted
    case Running(s, total) =>
      var k := Key(r.index, s.currentEpoch);
      if Taken(s, k) then Halted
      else if !RedeemSigned(cfg, s.currentEpoch, to, r) then Halted
      else if total + cfg.indexValue >= U256_SIZE then Halted
      else Running(s.(claimed := s.claimed + {k}), total + cfg.indexValue)
  }

  function RedeemLoop(cfg: Config, s: State, to: Address, batch: seq<RedeemRecord>): Progress {
    if batch == [] then Running(s, 0)
    else RedeemStep(cfg, RedeemLoop(cfg, s, to, batch[..|batch| - 1]), to, batch[|batch| - 1])
  }

  function Redeem(cfg: Config, s: State, to: Address, batch: seq<RedeemRecord>): Outcome {
    match RedeemLoop(cfg, s, to, batch)
    case Halted => Reverted
    case Running(t, total) =>
      if t.balance < total then Reverted else Done(t.(balance := t.balance - total))
  }

  // ----- burning

  /** The time stored for a burn entry: a duration, not a point in time. */
  function BurnTimeFor(cfg: Config, r: BurnRecord): nat {
    if r.kind == 1 then cfg.burnBuffer + INV_DISADVANTAGE_BUFFER else cfg.burnBuffer
  }

  function InvalidatorFor(cfg: Config, to: Address, r: BurnRecord): Address {
    if r.kind == 1 then to else cfg.owner
  }

  function BurnMessage(cfg: Config, epoch: nat, to: Address, r: BurnRecord): Message {
    if r.kind < 2 then TypeOne(r.index, epoch, r.u, InvalidatorFor(cfg, to, r))
    else TypeTwo(r.index, epoch, r.u, cfg.owner, to)
  }

  predicate BurnSigned(cfg: Config, epoch: nat, to: Address, r: BurnRecord) {
    cfg.recover(BurnMessage(cfg, epoch, to, r), r.commitSig) == cfg.owner
  }

  /** The clock is strictly before the epoch's end less both buffers. */
  predicate BurnWindowOpen(cfg: Config, s: State, now: nat) {
    && cfg.burnBuffer + INV_DISADVANTAGE_BUFFER < U256_SIZE
    && cfg.burnBuffer + INV_DISADVANTAGE_BUFFER <= s.epochExpiresBy
    && now < s.epochExpiresBy - (cfg.burnBuffer + INV_DISADVANTAGE_BUFFER)
  }

  function BurnStep(cfg: Config, p: Progress, to: Address, r: BurnRecord): Progress {
    match p
    case Halted => Halted
    case Running(s, total) =>
      var k := Key(r.index, s.currentEpoch);
      if Taken(s, k) then Halted
      else if !BurnSigned(cfg, s.currentEpoch, to, r) then Halted
      else if total + cfg.indexValue >= U256_SIZE then Halted
      else Running(s.(burnTime := s.burnTime[k := BurnTimeFor(cfg, r)],
                      burnBlob := s.burnBlob[k := r.u],
                      burnIAddress := s.burnIAddress[k := InvalidatorFor(cfg, to, r)]),
                   total + cfg.indexValue)
  }

  function BurnLoop(cfg: Config, s: State, to: Address, batch: seq<BurnRecord>): Progress {
    if batch == [] then Running(s, 0)
    else BurnStep(cfg, BurnLoop(cfg, s, to, batch[..|batch| - 1]), to, batch[|batch| - 1])
  }

  function Burn(cfg: Config, s: State, now: nat, to: Address, batch: seq<BurnRecord>): Outcome {
    if !BurnWindowOpen(cfg, s, now) then Reverted
    else match BurnLoop(cfg, s, to, batch)
      case Halted => Reverted
      case Running(t, total) =>
        if t.pendingBurnAmount + total >= U256_SIZE then Reverted
        else Done(t.(pendingBurnAmount := t.pendingBurnAmount + total))
  }

  // ----- challenging

  predicate Invalidates(cfg: Config, s: State, c: ChallengeRecord) {
    && BlobOf(s, c.key).Some?
    && cfg.recover(Invalidating(BlobOf(s, c.key).value), c.sig) == IAddressOf(s, c.key)
  }

  function ChallengeStep(cfg: Config, p: Progress, now: nat, c: ChallengeRecord): Progress {
    match p
    case Halted => Halted
    case Running(s, total) =>
      if TimeOf(s, c.key) <= now then Halted
      else if !Invalidates(cfg, s, c) then Halted
      else if total + cfg.indexValue >= U256_SIZE then Halted
      else Running(s.(burnTime := s.burnTime - {c.key},
                      burnBlob := s.burnBlob - {c.key},
                      burnIAddress := s.burnIAddress - {c.key}),
                   total + cfg.indexValue)
  }

  function ChallengeLoop(cfg: Config, s: State, now: nat, batch: seq<ChallengeRecord>): Progress {
    if batch == [] then Running(s, 0)
    else ChallengeStep(cfg, ChallengeLoop(cfg, s, now, batch[..|batch| - 1]), now, batch[|batch| - 1])
  }

  function Challenge(cfg: Config, s: State, now: nat, batch: seq<ChallengeRecord>): Outcome {
    match ChallengeLoop(cfg, s, now, batch)
    case Halted => Reverted
    case Running(t, total) =>
      if t.pendingBurnAmount < total then Reverted
      else Done(t.(pendingBurnAmount := t.pendingBurnAmount - total))
  }

  // ----- the range view

  /** None is the panic of a zero divisor or of an overflowing product. */
  function IsValidCommitRange(cfg: Config, s: State, now: nat, sIndex: nat, eIndex: nat, epoch: nat): Option<bool> {
    if sIndex == 0 then Some(false)
    else if sIndex >= eIndex then Some(false)
    else if epoch != s.currentEpoch || now >= s.epochExpiresBy then Some(false)
    else if cfg.indexValue == 0 || 2 * cfg.indexValue >= U256_SIZE then None
    else Some(s.reserves / (2 * cfg.indexValue) <= eIndex)
  }
}
