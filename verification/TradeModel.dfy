/** Trades and their statuses, as both sides of an exchange store them. */
module TradeModel {
  import opened Common

  datatype TradeStatus =
    | WaitingRT1Commit
    | RSendT1Commit
    | ProcessingRT1Commit
    | WaitingPT1Commit
    | PSendT1Commit
    | ProcessingPT1Commit
    | WaitingRT2Commit
    | RSendT2Commit
    | ProcessingRT2Commit
    | WaitingForService
    | PFulfillService
    | WaitingInvalidatingSignatures

  datatype Trade = Trade(
    id: nat,
    requesterId: PeerId,
    providerId: PeerId,
    charge: nat,
    status: TradeStatus,
    isRequester: bool
  ) {
    function CounterParty(): PeerId {
      if isRequester then providerId else requesterId
    }

    predicate IsSendingStatus() {
      IsSending(status)
    }
  }

  predicate IsSending(s: TradeStatus) {
    s == RSendT1Commit || s == PSendT1Commit || s == RSendT2Commit
  }

  predicate IsWaiting(s: TradeStatus) {
    s == WaitingRT1Commit || s == WaitingPT1Commit || s == WaitingRT2Commit
  }

  /** From sending to waiting, once a send has been answered. */
  function AfterSend(s: TradeStatus): TradeStatus {
    match s
    case PSendT1Commit => WaitingRT2Commit
    case RSendT1Commit => WaitingPT1Commit
    case RSendT2Commit => WaitingForService
    case _ => s
  }

  /** From waiting to processing, once a commit has been received. */
  function Processing(s: TradeStatus): TradeStatus {
    match s
    case WaitingRT1Commit => ProcessingRT1Commit
    case WaitingPT1Commit => ProcessingPT1Commit
    case WaitingRT2Commit => ProcessingRT2Commit
    case _ => s
  }

  /** From processing to sending, once a commit has been verified. */
  function AfterVerify(s: TradeStatus): TradeStatus {
    match s
    case ProcessingRT1Commit => PSendT1Commit
    case ProcessingPT1Commit => RSendT2Commit
    case ProcessingRT2Commit => PFulfillService
    case _ => s
  }
}
