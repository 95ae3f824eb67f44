/**
 The exchange of commits for one trade, between its two nodes.

 Each node keeps the stored trade status, the mark of an active send, and tasks it
 has spawned. A task works on the snapshot of the trade it was given and writes the
 whole trade back. Mail is never used up: a message may be delivered late, repeatedly
 or not at all, and anyone else may send messages in their own name. A step that is not
 possible changes nothing, so every list of steps is a run.
 */
module Handshake {
  import opened Common
  import opened TradeModel

  datatype Side = Requester | Provider

  datatype Sender = Party(side: Side) | Outsider

  datatype Kind = T1Requester | T1Provider | T2Requester

  datatype Message = Message(kind: Kind, from: Sender, to: Side)

  /** Reported: the result event is queued for the node's event loop. */
  datatype SendPhase = Ready | Sent | Reported | Retired

  datatype VerifyPhase = Begun | Checking | Checked

  datatype Task =
    | Send(snapshot: TradeStatus, sending: SendPhase)
    | Verify(snapshot: TradeStatus, verifying: VerifyPhase)

  datatype Node = Node(status: Option<TradeStatus>, active: bool, tasks: seq<Task>)

  /** What each side did, oldest first; no step reads it. */
  datatype Event = Transmitted(kind: Kind) | Accepted(kind: Kind)

  datatype System = System(requester: Node, provider: Node, mail: set<Message>, log: seq<Event>)

  datatype Step =
    | AcceptStart
    | ConfirmStart
    | TickStep(side: Side)
    | TransmitStep(side: Side, task: nat)
    | AnsweredStep(side: Side, task: nat)
    | FailedStep(side: Side, task: nat)
    | ReportStep(side: Side, task: nat)
    | InjectStep(message: Message)
    | DeliverStep(message: Message)
    | BeginVerifyStep(side: Side, task: nat)
    | EndVerifyStep(side: Side, task: nat)

  // ----- one node

  function TickNode(n: Node): Node {
    if n.status.Some? && IsSending(n.status.value) && !n.active
    then n.(active := true, tasks := n.tasks + [Send(n.status.value, Ready)])
    else n
  }

  /** The request that a sending status calls for; None is the expect that would panic. */
  function SendRequest(s: TradeStatus): Option<Kind> {
    match s
    case RSendT1Commit => Some(T1Requester)
    case PSendT1Commit => Some(T1Provider)
    case RSendT2Commit => Some(T2Requester)
    case _ => None
  }

  /** The status in which a commit of a kind is awaited. */
  function AwaitedIn(k: Kind): TradeStatus {
    match k
    case T1Requester => WaitingRT1Commit
    case T1Provider => WaitingPT1Commit
    case T2Requester => WaitingRT2Commit
  }

  predicate SendAt(n: Node, i: nat, phase: SendPhase) {
    i < |n.tasks| && n.tasks[i].Send? && n.tasks[i].sending == phase
  }

  predicate VerifyAt(n: Node, i: nat, phase: VerifyPhase) {
    i < |n.tasks| && n.tasks[i].Verify? && n.tasks[i].verifying == phase
  }

  function Transmit(n: Node, i: nat): Node
    requires SendAt(n, i, Ready)
  {
    n.(tasks := n.tasks[i := n.tasks[i].(sending := Sent)])
  }

  /** Any answer, also a refusal, moves the stored status on from the snapshot. */
  function Answered(n: Node, i: nat): Node
    requires SendAt(n, i, Sent)
  {
    n.(status := Some(AfterSend(n.tasks[i].snapshot)), tasks := n.tasks[i := n.tasks[i].(sending := Reported)])
  }

  function Failed(n: Node, i: nat): Node
    requires SendAt(n, i, Sent)
  {
    n.(tasks := n.tasks[i := n.tasks[i].(sending := Reported)])
  }

  function HandleReport(n: Node, i: nat): Node
    requires SendAt(n, i, Reported)
  {
    n.(active := false, tasks := n.tasks[i := n.tasks[i].(sending := Retired)])
  }

  predicate Accepts(n: Node, counterParty: Side, m: Message) {
    n.status == Some(AwaitedIn(m.kind)) && m.from == Party(counterParty)
  }

  /** Acceptance only spawns; the status is written when the verification begins. */
  function Accept(n: Node): Node
    requires n.status.Some?
  {
    n.(tasks := n.tasks + [Verify(n.status.value, Begun)])
  }

  function BeginVerify(n: Node, i: nat): Node
    requires VerifyAt(n, i, Begun)
  {
    n.(status := Some(Processing(n.tasks[i].snapshot)), tasks := n.tasks[i := n.tasks[i].(verifying := Checking)])
  }

  function EndVerify(n: Node, i: nat): Node
    requires VerifyAt(n, i, Checking)
  {
    n.(status := Some(AfterVerify(Processing(n.tasks[i].snapshot))),
       tasks := n.tasks[i := n.tasks[i].(verifying := Checked)])
  }

  // ----- the system

  function NodeOf(s: System, side: Side): Node {
    match side case Requester => s.requester case Provider => s.provider
  }

  function WithNode(s: System, side: Side, n: Node): System {
    match side case Requester => s.(requester := n) case Provider => s.(provider := n)
  }

  /**
   The counter party by a node's stored copy of the trade. The provider's copy has the
   requester flag unset. `flag` is the requester's copy: set as the field is documented,
   or unset as the received trade carries it.
   */
  function CounterPartyOf(flag: bool, side: Side): Side {
    if side == Requester && flag then Provider else Requester
  }

  function Apply(flag: bool, s: System, step: Step): System {
    match step
    case AcceptStart =>
      if s.requester.status.None? then s.(requester := s.requester.(status := Some(RSendT1Commit))) else s
    case ConfirmStart =>
      if s.requester.status.Some? && s.provider.status.None?
      then s.(provider := s.provider.(status := Some(WaitingRT1Commit)))
      else s
    case TickStep(side) => WithNode(s, side, TickNode(NodeOf(s, side)))
    case TransmitStep(side, i) =>
      var n := NodeOf(s, side);
      if SendAt(n, i, Ready) && SendRequest(n.tasks[i].snapshot).Some? then
        var k := SendRequest(n.tasks[i].snapshot).value;
        WithNode(s, side, Transmit(n, i))
        .(mail := s.mail + {Message(k, Party(side), CounterPartyOf(flag, side))}, log := s.log + [Transmitted(k)])
      else s
    case AnsweredStep(side, i) =>
      if SendAt(NodeOf(s, side), i, Sent) then WithNode(s, side, Answered(NodeOf(s, side), i)) else s
    case FailedStep(side, i) =>
      if SendAt(NodeOf(s, side), i, Sent) then WithNode(s, side, Failed(NodeOf(s, side), i)) else s
    case ReportStep(side, i) =>
      if SendAt(NodeOf(s, side), i, Reported) then WithNode(s, side, HandleReport(NodeOf(s, side), i)) else s
    case InjectStep(m) =>
      if m.from == Outsider then s.(mail := s.mail + {m}) else s
    case DeliverStep(m) =>
      var n := NodeOf(s, m.to);
      if m in s.mail && Accepts(n, CounterPartyOf(flag, m.to), m)
      then WithNode(s, m.to, Accept(n)).(log := s.log + [Accepted(m.kind)])
      else s
    case BeginVerifyStep(side, i) =>
      if VerifyAt(NodeOf(s, side), i, Begun) then WithNode(s, side, BeginVerify(NodeOf(s, side), i)) else s
    case EndVerifyStep(side, i) =>
      if VerifyAt(NodeOf(s, side), i, Checking) then WithNode(s, side, EndVerify(NodeOf(s, side), i)) else s
  }

  function Run(flag: bool, s: System, steps: seq<Step>): System
    decreases |steps|
  {
    if steps == [] then s else Run(flag, Apply(flag, s, steps[0]), steps[1..])
  }

  function Idle(): Node {
    Node(None, false, [])
  }

  function Start(): System {
    System(Idle(), Idle(), {}, [])
  }
}
