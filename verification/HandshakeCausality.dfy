/**
 Order of exchange. Whatever the network and the scheduler do, a provider that is
 to fulfil the service has gone through the whole exchange, step after step.
 */
module HandshakeCausality {
  import opened Common
  import opened TradeModel
  import opened Handshake

  /** The exchange in its intended order. */
  function Exchange(): seq<Event> {
    [Transmitted(T1Requester), Accepted(T1Requester),
     Transmitted(T1Provider), Accepted(T1Provider),
     Transmitted(T2Requester), Accepted(T2Requester)]
  }

  /** The first n events of the exchange occur in the log, in this order. */
  ghost predicate HappenedInOrder(n: nat, log: seq<Event>)
    requires n <= 6
  {
    n == 0 || exists i :: 0 <= i < |log| && log[i] == Exchange()[n - 1] && HappenedInOrder(n - 1, log[..i])
  }

  lemma {:induction false} OrderSurvives(n: nat, log: seq<Event>, e: Event)
    requires n <= 6 && HappenedInOrder(n, log)
    ensures HappenedInOrder(n, log + [e])
  {
    if n > 0 {
      var i :| 0 <= i < |log| && log[i] == Exchange()[n - 1] && HappenedInOrder(n - 1, log[..i]);
      assert (log + [e])[..i] == log[..i] && (log + [e])[i] == log[i];
    }
  }

  lemma OrderExtends(n: nat, log: seq<Event>, e: Event)
    requires n < 6 && HappenedInOrder(n, log) && e == Exchange()[n]
    ensures HappenedInOrder(n + 1, log + [e])
  {
    var i := |log|;
    assert (log + [e])[..i] == log && (log + [e])[i] == e;
  }

  /** How many events of the exchange a status gives evidence of. */
  function Evidence(s: TradeStatus): (n: nat)
    ensures n <= 6
  {
    match s
    case WaitingRT1Commit => 0
    case RSendT1Commit => 0
    case WaitingPT1Commit => 1
    case ProcessingRT1Commit => 2
    case PSendT1Commit => 2
    case WaitingRT2Commit => 3
    case ProcessingPT1Commit => 4
    case RSendT2Commit => 4
    case WaitingForService => 5
    case ProcessingRT2Commit => 6
    case PFulfillService => 6
    case WaitingInvalidatingSignatures => 6
  }

  function TaskEvidence(t: Task): (n: nat)
    ensures n <= 6
  {
    match t
    case Send(snapshot, Ready) => Evidence(snapshot)
    case Send(snapshot, _) => Evidence(AfterSend(snapshot))
    case Verify(snapshot, _) => Evidence(Processing(snapshot))
  }

  predicate RoleStatus(side: Side, s: TradeStatus) {
    match side
    case Requester => s in {RSendT1Commit, WaitingPT1Commit, ProcessingPT1Commit, RSendT2Commit, WaitingForService}
    case Provider =>
      s in {WaitingRT1Commit, ProcessingRT1Commit, PSendT1Commit, WaitingRT2Commit, ProcessingRT2Commit, PFulfillService}
  }

  predicate RoleTask(side: Side, t: Task) {
    RoleStatus(side, t.snapshot) && (if t.Send? then IsSending(t.snapshot) else IsWaiting(t.snapshot))
  }

  ghost predicate NodeInv(side: Side, n: Node, log: seq<Event>) {
    && (n.status.Some? ==> RoleStatus(side, n.status.value) && HappenedInOrder(Evidence(n.status.value), log))
    && (forall i :: 0 <= i < |n.tasks| ==> RoleTask(side, n.tasks[i]) && HappenedInOrder(TaskEvidence(n.tasks[i]), log))
  }

  function SenderOf(k: Kind): Side {
    if k == T1Provider then Provider else Requester
  }

  /** How many events a transmitted message gives evidence of, its own being the last. */
  function MailEvidence(k: Kind): nat {
    match k case T1Requester => 1 case T1Provider => 3 case T2Requester => 5
  }

  /** A message is from its rightful sender, and evidence up to its transmission. */
  ghost predicate MailInv(mail: set<Message>, log: seq<Event>) {
    forall m :: m in mail && m.from.Party? ==>
      m.from.side == SenderOf(m.kind) && HappenedInOrder(MailEvidence(m.kind), log)
  }

  ghost predicate Inv(s: System) {
    && NodeInv(Requester, s.requester, s.log)
    && NodeInv(Provider, s.provider, s.log)
    && MailInv(s.mail, s.log)
  }

  lemma NodeInvSurvives(side: Side, n: Node, log: seq<Event>, e: Event)
    requires NodeInv(side, n, log)
    ensures NodeInv(side, n, log + [e])
  {
    if n.status.Some? {
      OrderSurvives(Evidence(n.status.value), log, e);
    }
    forall i | 0 <= i < |n.tasks| ensures HappenedInOrder(TaskEvidence(n.tasks[i]), log + [e]) {
      OrderSurvives(TaskEvidence(n.tasks[i]), log, e);
    }
  }

  lemma MailInvSurvives(mail: set<Message>, log: seq<Event>, e: Event)
    requires MailInv(mail, log)
    ensures MailInv(mail, log + [e])
  {
    forall m | m in mail && m.from.Party? ensures HappenedInOrder(MailEvidence(m.kind), log + [e]) {
      OrderSurvives(MailEvidence(m.kind), log, e);
    }
  }

  /** Changing one task, or appending one, keeps the others' evidence. */
  lemma ReplaceTask(side: Side, n: Node, log: seq<Event>, i: nat, t: Task)
    requires NodeInv(side, n, log) && i < |n.tasks|
    requires RoleTask(side, t) && HappenedInOrder(TaskEvidence(t), log)
    ensures NodeInv(side, n.(tasks := n.tasks[i := t]), log)
  {}

  lemma AppendTask(side: Side, n: Node, log: seq<Event>, t: Task)
    requires NodeInv(side, n, log)
    requires RoleTask(side, t) && HappenedInOrder(TaskEvidence(t), log)
    ensures NodeInv(side, n.(tasks := n.tasks + [t]), log)
  {}

  lemma WriteStatus(side: Side, n: Node, log: seq<Event>, to: TradeStatus, active: bool)
    requires NodeInv(side, n, log)
    requires RoleStatus(side, to) && HappenedInOrder(Evidence(to), log)
    ensures NodeInv(side, n.(status := Some(to)), log) && NodeInv(side, n.(active := active), log)
  {}

  /** Steps of one node alone, which leave the log as it is. */
  lemma SendSteps(side: Side, n: Node, log: seq<Event>, i: nat)
    requires NodeInv(side, n, log)
    ensures NodeInv(side, TickNode(n), log)
    ensures SendAt(n, i, Sent) ==> NodeInv(side, Failed(n, i), log)
    ensures SendAt(n, i, Reported) ==> NodeInv(side, HandleReport(n, i), log)
  {
    if n.status.Some? && IsSending(n.status.value) && !n.active {
      AppendTask(side, n.(active := true), log, Send(n.status.value, Ready));
    }
    if SendAt(n, i, Sent) {
      ReplaceTask(side, n, log, i, n.tasks[i].(sending := Reported));
    } else if SendAt(n, i, Reported) {
      ReplaceTask(side, n.(active := false), log, i, n.tasks[i].(sending := Retired));
    }
  }

  lemma WritingSteps(side: Side, n: Node, log: seq<Event>, i: nat)
    requires NodeInv(side, n, log)
    ensures SendAt(n, i, Sent) ==> NodeInv(side, Answered(n, i), log)
    ensures VerifyAt(n, i, Begun) ==> NodeInv(side, BeginVerify(n, i), log)
    ensures VerifyAt(n, i, Checking) ==> NodeInv(side, EndVerify(n, i), log)
  {
    if i < |n.tasks| {
      assert RoleTask(side, n.tasks[i]);
      var at := n.tasks[i].snapshot;
      if SendAt(n, i, Sent) {
        ReplaceTask(side, n, log, i, n.tasks[i].(sending := Reported));
        WriteStatus(side, n.(tasks := n.tasks[i := n.tasks[i].(sending := Reported)]), log, AfterSend(at), n.active);
      } else if VerifyAt(n, i, Begun) {
        ReplaceTask(side, n, log, i, n.tasks[i].(verifying := Checking));
        WriteStatus(side, n.(tasks := n.tasks[i := n.tasks[i].(verifying := Checking)]), log, Processing(at), n.active);
      } else if VerifyAt(n, i, Checking) {
        ReplaceTask(side, n, log, i, n.tasks[i].(verifying := Checked));
        WriteStatus(side, n.(tasks := n.tasks[i := n.tasks[i].(verifying := Checked)]), log,
                    AfterVerify(Processing(at)), n.active);
      }
    }
  }

  /** A logged event leaves both nodes and the mail with their evidence. */
  lemma LogSurvives(s: System, e: Event)
    requires Inv(s)
    ensures Inv(s.(log := s.log + [e]))
  {
    NodeInvSurvives(Requester, s.requester, s.log, e);
    NodeInvSurvives(Provider, s.provider, s.log, e);
    MailInvSurvives(s.mail, s.log, e);
  }

  lemma ReplaceNode(s: System, side: Side, n: Node)
    requires Inv(s) && NodeInv(side, n, s.log)
    ensures Inv(WithNode(s, side, n))
  {}

  lemma AddLetter(s: System, m: Message)
    requires Inv(s) && m.from.Party? && m.from.side == SenderOf(m.kind) && HappenedInOrder(MailEvidence(m.kind), s.log)
    ensures Inv(s.(mail := s.mail + {m}))
  {}

  lemma TransmitLogged(side: Side, n: Node, log: seq<Event>, i: nat)
    requires NodeInv(side, n, log) && SendAt(n, i, Ready)
    ensures SendRequest(n.tasks[i].snapshot).Some?
    ensures var k := SendRequest(n.tasks[i].snapshot).value;
            && SenderOf(k) == side
            && HappenedInOrder(MailEvidence(k), log + [Transmitted(k)])
            && RoleTask(side, n.tasks[i].(sending := Sent))
            && HappenedInOrder(TaskEvidence(n.tasks[i].(sending := Sent)), log + [Transmitted(k)])
  {
    assert RoleTask(side, n.tasks[i]);
    OrderExtends(Evidence(n.tasks[i].snapshot), log, Transmitted(SendRequest(n.tasks[i].snapshot).value));
  }

  lemma {:induction false} TransmitKeepsInv(flag: bool, s: System, side: Side, i: nat)
    requires Inv(s)
    ensures Inv(Apply(flag, s, TransmitStep(side, i)))
  {
    var n := NodeOf(s, side);
    if SendAt(n, i, Ready) {
      TransmitLogged(side, n, s.log, i);
      var k := SendRequest(n.tasks[i].snapshot).value;
      LogSurvives(s, Transmitted(k));
      var t := s.(log := s.log + [Transmitted(k)]);
      ReplaceTask(side, n, t.log, i, n.tasks[i].(sending := Sent));
      ReplaceNode(t, side, Transmit(n, i));
      AddLetter(WithNode(t, side, Transmit(n, i)), Message(k, Party(side), CounterPartyOf(flag, side)));
    }
  }

  lemma {:induction false} DeliverKeepsInv(flag: bool, s: System, m: Message)
    requires Inv(s)
    ensures Inv(Apply(flag, s, DeliverStep(m)))
  {
    var n := NodeOf(s, m.to);
    if m in s.mail && Accepts(n, CounterPartyOf(flag, m.to), m) {
      var e := Accepted(m.kind);
      OrderExtends(MailEvidence(m.kind), s.log, e);
      LogSurvives(s, e);
      var t := s.(log := s.log + [e]);
      AppendTask(m.to, n, t.log, Verify(n.status.value, Begun));
      ReplaceNode(t, m.to, Accept(n));
    }
  }

  lemma {:induction false} ApplyKeepsInv(flag: bool, s: System, step: Step)
    requires Inv(s)
    ensures Inv(Apply(flag, s, step))
  {
    match step
    case TransmitStep(side, i) => TransmitKeepsInv(flag, s, side, i);
    case DeliverStep(m) => DeliverKeepsInv(flag, s, m);
    case AcceptStart =>
    case ConfirmStart =>
    case InjectStep(_) =>
    case TickStep(side) => SendSteps(side, NodeOf(s, side), s.log, 0);
    case AnsweredStep(side, i) => WritingSteps(side, NodeOf(s, side), s.log, i);
    case FailedStep(side, i) => SendSteps(side, NodeOf(s, side), s.log, i);
    case ReportStep(side, i) => SendSteps(side, NodeOf(s, side), s.log, i);
    case BeginVerifyStep(side, i) => WritingSteps(side, NodeOf(s, side), s.log, i);
    case EndVerifyStep(side, i) => WritingSteps(side, NodeOf(s, side), s.log, i);
  }

  lemma {:induction false} RunKeepsInv(flag: bool, s: System, steps: seq<Step>)
    requires Inv(s)
    ensures Inv(Run(flag, s, steps))
    decreases |steps|
  {
    if steps != [] {
      ApplyKeepsInv(flag, s, steps[0]);
      RunKeepsInv(flag, Apply(flag, s, steps[0]), steps[1..]);
    }
  }

  /**
   In every run, with loss, delay, repetition, messages from anyone else in their own name
   (the sender of a message is authentic) and any scheduling, the
   provider is to fulfil the service only after: the requester sent its T1, the provider
   accepted it and sent its own T1, the requester accepted that and sent its T2, and the
   provider accepted the T2, in that order.
   */
  lemma ServiceOnlyAfterExchange(flag: bool, steps: seq<Step>)
    requires Run(flag, Start(), steps).provider.status == Some(PFulfillService)
    ensures HappenedInOrder(6, Run(flag, Start(), steps).log)
  {
    RunKeepsInv(flag, Start(), steps);
  }

  /** A provider stores the trade only once the requester has taken it, and works on it only then. */
  ghost predicate RequesterFirst(s: System) {
    && (s.provider.status.Some? ==> s.requester.status.Some?)
    && (s.provider.tasks != [] ==> s.provider.status.Some?)
  }

  lemma ApplyKeepsRequesterFirst(flag: bool, s: System, step: Step)
    requires RequesterFirst(s)
    ensures RequesterFirst(Apply(flag, s, step))
  {}

  lemma {:induction false} RequesterIsFirst(flag: bool, s: System, steps: seq<Step>)
    requires RequesterFirst(s)
    ensures RequesterFirst(Run(flag, s, steps))
    decreases |steps|
  {
    if steps != [] {
      ApplyKeepsRequesterFirst(flag, s, steps[0]);
      RequesterIsFirst(flag, Apply(flag, s, steps[0]), steps[1..]);
    }
  }

  /** A spawned send always has a request to send, so creating it never panics. */
  lemma SendsNeverPanic(flag: bool, steps: seq<Step>, side: Side, i: nat, phase: SendPhase)
    requires SendAt(NodeOf(Run(flag, Start(), steps), side), i, phase)
    ensures SendRequest(NodeOf(Run(flag, Start(), steps), side).tasks[i].snapshot).Some?
  {
    RunKeepsInv(flag, Start(), steps);
    assert RoleTask(side, NodeOf(Run(flag, Start(), steps), side).tasks[i]);
  }

  // ----- the requester flag

  /** With the flag unset the requester takes itself for its counter party. */
  ghost predicate Stalled(s: System) {
    && (forall m :: m in s.mail && m.from == Party(Requester) ==> m.to == Requester)
    && s.provider.tasks == []
    && s.provider.status in {None, Some(WaitingRT1Commit)}
  }

  lemma ApplyKeepsStalled(s: System, step: Step)
    requires Inv(s) && Stalled(s)
    ensures Stalled(Apply(false, s, step))
  {}

  lemma {:induction false} RunKeepsStalled(s: System, steps: seq<Step>)
    requires Inv(s) && Stalled(s)
    ensures Stalled(Run(false, s, steps))
    decreases |steps|
  {
    if steps != [] {
      ApplyKeepsStalled(s, steps[0]);
      ApplyKeepsInv(false, s, steps[0]);
      RunKeepsStalled(Apply(false, s, steps[0]), steps[1..]);
    }
  }

  // ----- runs by their last step

  lemma {:induction false} RunSnoc(flag: bool, s: System, steps: seq<Step>, step: Step)
    ensures Run(flag, s, steps + [step]) == Apply(flag, Run(flag, s, steps), step)
    decreases |steps|
  {
    if steps == [] {
      assert [step][1..] == [];
    } else {
      assert (steps + [step])[1..] == steps[1..] + [step];
      RunSnoc(flag, Apply(flag, s, steps[0]), steps[1..], step);
    }
  }
}
