/**
 What can still happen. With the requester's flag set no ordered run is a dead end: sends
 may fail and answers be lost, and the exchange can still be completed, if need be by
 messages that arrive once more. Without such repetition both sides can wait for each other
 for good.
 */
module HandshakeProgress {
  import opened Common
  import opened TradeModel
  import opened Handshake
  import opened HandshakeCausality
  import opened HandshakeOrder

  // ----- a failed send

  /**
   A send that fails is reported, and the next tick makes another one of the same status:
   a failure costs nothing but the time to the next tick.
   */
  lemma FailedSendIsRetried(flag: bool, s: System, side: Side, i: nat)
    requires SendAt(NodeOf(s, side), i, Sent) && IsSending(NodeOf(s, side).tasks[i].snapshot)
    requires NodeOf(s, side).status == Some(NodeOf(s, side).tasks[i].snapshot)
    ensures var failed := Apply(flag, s, FailedStep(side, i));
            var reported := Apply(flag, failed, ReportStep(side, i));
            var ticked := Apply(flag, reported, TickStep(side));
            var n, m := NodeOf(s, side), NodeOf(ticked, side);
            && m.status == n.status && m.active
            && m.tasks == n.tasks[i := Send(n.tasks[i].snapshot, Retired)] + [Send(n.tasks[i].snapshot, Ready)]
            && ticked == WithNode(s, side, m)
  {}

  // ----- what holds in every ordered run

  function Receiver(k: Kind): Side {
    if SenderOf(k) == Requester then Provider else Requester
  }

  function Letter(k: Kind): Message {
    Message(k, Party(SenderOf(k)), Receiver(k))
  }

  /** What was transmitted can be delivered, again and again. */
  ghost predicate StillInMail(s: System) {
    forall k :: Transmitted(k) in s.log ==> Letter(k) in s.mail
  }

  predicate IsProcessing(s: TradeStatus) {
    s == ProcessingRT1Commit || s == ProcessingPT1Commit || s == ProcessingRT2Commit
  }

  /** A processing status has its verification going on. */
  ghost predicate InHand(n: Node) {
    n.status.Some? && IsProcessing(n.status.value) ==> exists i: nat :: VerifyAt(n, i, Checking)
  }

  ghost predicate Good(s: System) {
    Inv(s) && OrderInv(s) && StillInMail(s) && InHand(s.requester) && InHand(s.provider)
  }

  /** A task that is replaced by one that is no less in hand. */
  lemma ReplaceKeepsInHand(n: Node, i: nat, t: Task, active: bool)
    requires InHand(n) && i < |n.tasks|
    requires VerifyAt(n, i, Checking) ==> t == n.tasks[i]
    ensures InHand(n.(tasks := n.tasks[i := t], active := active))
  {
    if n.status.Some? && IsProcessing(n.status.value) {
      var j: nat :| VerifyAt(n, j, Checking);
      assert VerifyAt(n.(tasks := n.tasks[i := t], active := active), j, Checking);
    }
  }

  lemma SpawnKeepsInHand(n: Node, t: Task, active: bool)
    requires InHand(n)
    ensures InHand(n.(tasks := n.tasks + [t], active := active))
  {
    if n.status.Some? && IsProcessing(n.status.value) {
      var j: nat :| VerifyAt(n, j, Checking);
      assert VerifyAt(n.(tasks := n.tasks + [t], active := active), j, Checking);
    }
  }

  lemma WriterKeepsInHand(side: Side, n: Node, log: seq<Event>, i: nat)
    requires NodeInv(side, n, log) && InHand(n)
    ensures SendAt(n, i, Sent) ==> InHand(Answered(n, i))
    ensures VerifyAt(n, i, Begun) ==> InHand(BeginVerify(n, i))
    ensures VerifyAt(n, i, Checking) ==> InHand(EndVerify(n, i))
  {
    if i < |n.tasks| {
      assert RoleTask(side, n.tasks[i]);
      if VerifyAt(n, i, Begun) {
        assert VerifyAt(BeginVerify(n, i), i, Checking);
      }
    }
  }

  lemma SendKeepsInHand(n: Node, i: nat)
    requires InHand(n)
    ensures InHand(TickNode(n)) && (n.status.Some? ==> InHand(Accept(n)))
    ensures SendAt(n, i, Ready) ==> InHand(Transmit(n, i))
    ensures SendAt(n, i, Sent) ==> InHand(Failed(n, i))
    ensures SendAt(n, i, Reported) ==> InHand(HandleReport(n, i))
  {
    if n.status.Some? {
      SpawnKeepsInHand(n, Send(n.status.value, Ready), true);
      SpawnKeepsInHand(n, Verify(n.status.value, Begun), n.active);
    }
    if i < |n.tasks| && n.tasks[i].Send? {
      ReplaceKeepsInHand(n, i, n.tasks[i].(sending := Sent), n.active);
      ReplaceKeepsInHand(n, i, n.tasks[i].(sending := Reported), n.active);
      ReplaceKeepsInHand(n, i, n.tasks[i].(sending := Retired), false);
    }
  }

  predicate Writes(step: Step) {
    step.AnsweredStep? || step.BeginVerifyStep? || step.EndVerifyStep?
  }

  lemma {:induction false} WriteKeepsInHand(s: System, step: Step)
    requires NodeInv(Requester, s.requester, s.log) && NodeInv(Provider, s.provider, s.log)
    requires InHand(s.requester) && InHand(s.provider) && Writes(step)
    ensures InHand(Apply(true, s, step).requester) && InHand(Apply(true, s, step).provider)
  {
    WriterKeepsInHand(step.side, NodeOf(s, step.side), s.log, step.task);
  }

  lemma {:induction false} OtherStepKeepsInHand(s: System, step: Step)
    requires InHand(s.requester) && InHand(s.provider) && !Writes(step)
    ensures InHand(Apply(true, s, step).requester) && InHand(Apply(true, s, step).provider)
  {
    match step
    case TickStep(side) => SendKeepsInHand(NodeOf(s, side), 0);
    case TransmitStep(side, i) => SendKeepsInHand(NodeOf(s, side), i);
    case FailedStep(side, i) => SendKeepsInHand(NodeOf(s, side), i);
    case ReportStep(side, i) => SendKeepsInHand(NodeOf(s, side), i);
    case DeliverStep(m) => SendKeepsInHand(NodeOf(s, m.to), 0);
    case _ =>
  }

  lemma ApplyKeepsMail(s: System, step: Step)
    requires Inv(s) && StillInMail(s)
    ensures StillInMail(Apply(true, s, step))
  {
    match step
    case TransmitStep(side, i) =>
      var n := NodeOf(s, side);
      if SendAt(n, i, Ready) && SendRequest(n.tasks[i].snapshot).Some? {
        assert RoleTask(side, n.tasks[i]);
        assert SenderOf(SendRequest(n.tasks[i].snapshot).value) == side;
      }
    case _ =>
  }

  lemma {:induction false} ApplyKeepsGood(s: System, step: Step)
    requires Good(s) && !Overlaps(true, s, step)
    ensures Good(Apply(true, s, step))
  {
    ApplyKeepsInv(true, s, step);
    OrderInvStep(true, s, step);
    ApplyKeepsMail(s, step);
    if Writes(step) {
      WriteKeepsInHand(s, step);
    } else {
      OtherStepKeepsInHand(s, step);
    }
  }

  lemma {:induction false} RunKeepsGood(s: System, steps: seq<Step>)
    requires Good(s) && NoOverlap(true, s, steps)
    ensures Good(Run(true, s, steps))
    decreases |steps|
  {
    if steps != [] {
      ApplyKeepsGood(s, steps[0]);
      RunKeepsGood(Apply(true, s, steps[0]), steps[1..]);
    }
  }

  // ----- going on from a state

  /** An ordered run leads to the first state, and goes on to the second. */
  ghost predicate On(o: System, s: System) {
    exists before, steps ::
      && NoOverlap(true, Start(), before) && Run(true, Start(), before) == o
      && NoOverlap(true, o, steps) && Run(true, o, steps) == s
  }

  lemma {:induction false} OnIsGood(o: System, s: System)
    requires On(o, s)
    ensures Good(s)
  {
    var before, steps :| NoOverlap(true, Start(), before) && Run(true, Start(), before) == o
                         && NoOverlap(true, o, steps) && Run(true, o, steps) == s;
    StartIsOrdered();
    RunKeepsGood(Start(), before);
    RunKeepsGood(o, steps);
  }

  lemma {:induction false} NoOverlapSnoc(s: System, steps: seq<Step>, step: Step)
    requires NoOverlap(true, s, steps) && !Overlaps(true, Run(true, s, steps), step)
    ensures NoOverlap(true, s, steps + [step])
    decreases |steps|
  {
    if steps == [] {
      assert [step][1..] == [];
    } else {
      assert (steps + [step])[1..] == steps[1..] + [step];
      NoOverlapSnoc(Apply(true, s, steps[0]), steps[1..], step);
    }
  }

  lemma {:induction false} Go(o: System, s: System, step: Step) returns (t: System)
    requires On(o, s) && !Overlaps(true, s, step)
    ensures t == Apply(true, s, step) && On(o, t)
  {
    var before, steps :| NoOverlap(true, Start(), before) && Run(true, Start(), before) == o
                         && NoOverlap(true, o, steps) && Run(true, o, steps) == s;
    NoOverlapSnoc(o, steps, step);
    RunSnoc(true, o, steps, step);
    t := Apply(true, s, step);
  }

  /** No send is pending and no task can still write. */
  ghost predicate Settled(n: Node) {
    !n.active && forall i :: 0 <= i < |n.tasks| ==> !Writer(n.tasks[i])
  }

  function Other(side: Side): Side {
    if side == Requester then Provider else Requester
  }

  // ----- what a state of an ordered run tells

  lemma TaskOfRole(o: System, s: System, side: Side, i: nat)
    requires On(o, s) && i < |NodeOf(s, side).tasks|
    ensures RoleTask(side, NodeOf(s, side).tasks[i]) && NodeOf(s, side).status.Some?
  {
    OnIsGood(o, s);
  }

  lemma ActiveHasSend(o: System, s: System, side: Side) returns (i: nat)
    requires On(o, s) && NodeOf(s, side).active
    ensures i < |NodeOf(s, side).tasks| && Pending(NodeOf(s, side).tasks[i])
  {
    OnIsGood(o, s);
    i :| 0 <= i < |NodeOf(s, side).tasks| && Pending(NodeOf(s, side).tasks[i]);
  }

  /** With no send pending the one writer, if any, is a verification. */
  lemma WriterIsVerify(o: System, s: System, side: Side, i: nat)
    requires On(o, s) && !NodeOf(s, side).active && i < |NodeOf(s, side).tasks| && Writer(NodeOf(s, side).tasks[i])
    ensures VerifyAt(NodeOf(s, side), i, Begun) || VerifyAt(NodeOf(s, side), i, Checking)
    ensures forall j :: 0 <= j < |NodeOf(s, side).tasks| && j != i ==> !Writer(NodeOf(s, side).tasks[j])
  {
    OnIsGood(o, s);
    var n := NodeOf(s, side);
    assert !Pending(n.tasks[i]);
    forall j | 0 <= j < |n.tasks| && j != i ensures !Writer(n.tasks[j]) {
      assert !(Writer(n.tasks[i]) && Writer(n.tasks[j]));
    }
  }

  /** A settled node waits, or has to send. */
  lemma SettledStatus(o: System, s: System, side: Side)
    requires On(o, s) && Settled(NodeOf(s, side)) && NodeOf(s, side).status.Some?
    ensures RoleStatus(side, NodeOf(s, side).status.value) && !IsProcessing(NodeOf(s, side).status.value)
  {
    OnIsGood(o, s);
  }

  lemma {:induction false} EvidenceIsLogged(n: nat, log: seq<Event>, m: nat)
    requires m < n <= 6 && HappenedInOrder(n, log)
    ensures Exchange()[m] in log
  {
    var i :| 0 <= i < |log| && log[i] == Exchange()[n - 1] && HappenedInOrder(n - 1, log[..i]);
    if m < n - 1 {
      EvidenceIsLogged(n - 1, log[..i], m);
    }
  }

  /** A status is evidence that a message is in the mail. */
  lemma StatusMailed(o: System, s: System, side: Side, k: Kind)
    requires On(o, s) && NodeOf(s, side).status.Some?
    requires MailEvidence(k) <= Evidence(NodeOf(s, side).status.value)
    ensures Letter(k) in s.mail
  {
    OnIsGood(o, s);
    EvidenceIsLogged(Evidence(NodeOf(s, side).status.value), s.log, MailEvidence(k) - 1);
  }

  // ----- finishing what is going on

  /** A send that has made its request is answered, and the result handled. */
  lemma FinishSent(o: System, s: System, side: Side, i: nat) returns (t: System)
    requires On(o, s) && SendAt(NodeOf(s, side), i, Sent)
    ensures On(o, t) && NodeOf(t, Other(side)) == NodeOf(s, Other(side))
    ensures !NodeOf(t, side).active && NodeOf(t, side).status == Some(AfterSend(NodeOf(s, side).tasks[i].snapshot))
    ensures NodeOf(t, side).tasks == NodeOf(s, side).tasks[i := NodeOf(s, side).tasks[i].(sending := Retired)]
  {
    t := Go(o, s, AnsweredStep(side, i));
    t := Go(o, t, ReportStep(side, i));
  }

  lemma FinishReady(o: System, s: System, side: Side, i: nat) returns (t: System)
    requires On(o, s) && SendAt(NodeOf(s, side), i, Ready) && IsSending(NodeOf(s, side).tasks[i].snapshot)
    ensures On(o, t) && NodeOf(t, Other(side)) == NodeOf(s, Other(side))
    ensures !NodeOf(t, side).active && NodeOf(t, side).status == Some(AfterSend(NodeOf(s, side).tasks[i].snapshot))
    ensures NodeOf(t, side).tasks == NodeOf(s, side).tasks[i := NodeOf(s, side).tasks[i].(sending := Retired)]
  {
    t := Go(o, s, TransmitStep(side, i));
    assert NodeOf(t, side) == Transmit(NodeOf(s, side), i);
    t := FinishSent(o, t, side, i);
  }

  /** A pending send is brought to its end. */
  lemma FinishSend(o: System, s: System, side: Side, i: nat) returns (t: System)
    requires On(o, s) && i < |NodeOf(s, side).tasks| && Pending(NodeOf(s, side).tasks[i])
    ensures On(o, t) && NodeOf(t, Other(side)) == NodeOf(s, Other(side))
    ensures NodeOf(t, side).status.Some? && !NodeOf(t, side).active
  {
    TaskOfRole(o, s, side, i);
    match NodeOf(s, side).tasks[i].sending
    case Ready => t := FinishReady(o, s, side, i);
    case Sent => t := FinishSent(o, s, side, i);
    case Reported => t := Go(o, s, ReportStep(side, i));
  }

  /** A live verification is brought to its end. */
  lemma FinishVerify(o: System, s: System, side: Side, i: nat) returns (t: System)
    requires On(o, s) && (VerifyAt(NodeOf(s, side), i, Begun) || VerifyAt(NodeOf(s, side), i, Checking))
    ensures On(o, t) && NodeOf(t, Other(side)) == NodeOf(s, Other(side)) && t.mail == s.mail
    ensures NodeOf(t, side).status == Some(AfterVerify(Processing(NodeOf(s, side).tasks[i].snapshot)))
    ensures NodeOf(t, side).active == NodeOf(s, side).active
    ensures NodeOf(t, side).tasks == NodeOf(s, side).tasks[i := NodeOf(s, side).tasks[i].(verifying := Checked)]
  {
    t := s;
    if VerifyAt(NodeOf(t, side), i, Begun) {
      t := Go(o, t, BeginVerifyStep(side, i));
    }
    t := Go(o, t, EndVerifyStep(side, i));
  }

  lemma SettleTasks(o: System, s: System, side: Side) returns (t: System)
    requires On(o, s) && NodeOf(s, side).status.Some? && !NodeOf(s, side).active
    ensures On(o, t) && NodeOf(t, Other(side)) == NodeOf(s, Other(side))
    ensures NodeOf(t, side).status.Some? && Settled(NodeOf(t, side))
    ensures Settled(NodeOf(s, side)) ==> t == s
  {
    t := s;
    var n := NodeOf(t, side);
    if i :| 0 <= i < |n.tasks| && Writer(n.tasks[i]) {
      WriterIsVerify(o, s, side, i);
      t := FinishVerify(o, t, side, i);
    }
  }

  lemma Settle(o: System, s: System, side: Side) returns (t: System)
    requires On(o, s) && NodeOf(s, side).status.Some?
    ensures On(o, t) && NodeOf(t, Other(side)) == NodeOf(s, Other(side))
    ensures NodeOf(t, side).status.Some? && Settled(NodeOf(t, side))
    ensures Settled(NodeOf(s, side)) ==> t == s
  {
    t := s;
    if NodeOf(t, side).active {
      var i := ActiveHasSend(o, t, side);
      t := FinishSend(o, t, side, i);
    }
    t := SettleTasks(o, t, side);
  }

  /** A settled node makes the send that its status calls for. */
  lemma MakeSend(o: System, s: System, side: Side) returns (t: System)
    requires On(o, s) && Settled(NodeOf(s, side)) && NodeOf(s, side).status.Some? && IsSending(NodeOf(s, side).status.value)
    ensures On(o, t) && NodeOf(t, Other(side)) == NodeOf(s, Other(side))
    ensures Settled(NodeOf(t, side)) && NodeOf(t, side).status == Some(AfterSend(NodeOf(s, side).status.value))
  {
    var n := NodeOf(s, side);
    t := Go(o, s, TickStep(side));
    t := FinishReady(o, t, side, |n.tasks|);
    assert forall i :: 0 <= i < |n.tasks| ==> NodeOf(t, side).tasks[i] == n.tasks[i];
  }

  /** The statuses in which a side waits for the other, or is done. */
  predicate Waits(side: Side, at: TradeStatus) {
    match side
    case Requester => at == WaitingPT1Commit || at == WaitingForService
    case Provider => at == WaitingRT1Commit || at == WaitingRT2Commit || at == PFulfillService
  }

  /** Settled, and nothing to send. */
  lemma Rest(o: System, s: System, side: Side) returns (t: System)
    requires On(o, s) && NodeOf(s, side).status.Some?
    ensures On(o, t) && NodeOf(t, Other(side)) == NodeOf(s, Other(side))
    ensures Settled(NodeOf(t, side)) && NodeOf(t, side).status.Some? && Waits(side, NodeOf(t, side).status.value)
    ensures Settled(NodeOf(s, side)) ==> NodeOf(t, side).status == Some(AfterSend(NodeOf(s, side).status.value))
  {
    t := Settle(o, s, side);
    SettledStatus(o, t, side);
    if IsSending(NodeOf(t, side).status.value) {
      t := MakeSend(o, t, side);
    }
  }

  /** A settled node that awaits a commit takes it from the mail. */
  lemma Take(o: System, s: System, k: Kind) returns (t: System)
    requires On(o, s) && Letter(k) in s.mail
    requires Settled(NodeOf(s, Receiver(k))) && NodeOf(s, Receiver(k)).status == Some(AwaitedIn(k))
    ensures On(o, t) && NodeOf(t, SenderOf(k)) == NodeOf(s, SenderOf(k))
    ensures Settled(NodeOf(t, Receiver(k)))
    ensures NodeOf(t, Receiver(k)).status == Some(AfterVerify(Processing(AwaitedIn(k))))
  {
    var n := NodeOf(s, Receiver(k));
    assert !Unbegun(n);
    t := Go(o, s, DeliverStep(Letter(k)));
    assert NodeOf(t, Receiver(k)) == Accept(n);
    t := FinishVerify(o, t, Receiver(k), |n.tasks|);
    assert forall i :: 0 <= i < |n.tasks| ==> NodeOf(t, Receiver(k)).tasks[i] == n.tasks[i];
  }

  /** The trade opens, if it has not been opened. */
  lemma OpenTrade(o: System, s: System) returns (t: System)
    requires On(o, s)
    ensures On(o, t) && t.requester.status.Some? && t.provider.status.Some?
  {
    t := Go(o, s, AcceptStart);
    t := Go(o, t, ConfirmStart);
  }

  ghost predicate BothRest(s: System) {
    && Settled(s.requester) && s.requester.status.Some? && Waits(Requester, s.requester.status.value)
    && Settled(s.provider) && s.provider.status.Some? && Waits(Provider, s.provider.status.value)
  }

  lemma BothCome(o: System) returns (t: System)
    requires On(o, o)
    ensures On(o, t) && BothRest(t)
  {
    t := OpenTrade(o, o);
    t := Rest(o, t, Requester);
    t := Rest(o, t, Provider);
  }

  /** The three legs that may be left, each taken from the mail. */
  lemma FirstLeg(o: System, s: System) returns (t: System)
    requires On(o, s) && BothRest(s)
    ensures On(o, t) && BothRest(t) && t.provider.status != Some(WaitingRT1Commit)
  {
    t := s;
    if t.provider.status == Some(WaitingRT1Commit) {
      StatusMailed(o, t, Requester, T1Requester);
      t := Take(o, t, T1Requester);
      t := Rest(o, t, Provider);
    }
  }

  lemma SecondLeg(o: System, s: System) returns (t: System)
    requires On(o, s) && BothRest(s) && s.provider.status == Some(WaitingRT2Commit)
    ensures On(o, t) && BothRest(t) && t.provider == s.provider && t.requester.status == Some(WaitingForService)
  {
    t := s;
    if t.requester.status == Some(WaitingPT1Commit) {
      StatusMailed(o, t, Provider, T1Provider);
      t := Take(o, t, T1Provider);
      t := Rest(o, t, Requester);
    }
  }

  lemma ThirdLeg(o: System, s: System) returns (t: System)
    requires On(o, s) && BothRest(s) && s.provider.status != Some(WaitingRT1Commit)
    ensures On(o, t) && t.provider.status == Some(PFulfillService)
  {
    t := s;
    if t.provider.status == Some(WaitingRT2Commit) {
      t := SecondLeg(o, t);
      StatusMailed(o, t, Requester, T2Requester);
      t := Take(o, t, T2Requester);
    }
  }

  /** From any state of an ordered run the exchange can be completed. */
  lemma CanComplete(o: System)
    requires On(o, o)
    ensures exists more :: Run(true, o, more).provider.status == Some(PFulfillService)
  {
    var t := BothCome(o);
    t := FirstLeg(o, t);
    t := ThirdLeg(o, t);
    var before, more :| NoOverlap(true, Start(), before) && Run(true, Start(), before) == o
                        && NoOverlap(true, o, more) && Run(true, o, more) == t;
  }

  /**
   No ordered run is a dead end: whatever failed, was refused or got lost in it, it can be
   continued to the end of the exchange.
   */
  lemma {:induction false} NoDeadEnd(steps: seq<Step>)
    requires NoOverlap(true, Start(), steps)
    ensures exists more :: Run(true, Run(true, Start(), steps), more).provider.status == Some(PFulfillService)
  {
    var o := Run(true, Start(), steps);
    assert NoOverlap(true, o, []) && Run(true, o, []) == o;
    CanComplete(o);
  }

  /** The exchange can be completed exactly when the requester's copy has the flag set. */
  lemma CompletesIffFlagSet(flag: bool)
    ensures (exists steps :: Run(flag, Start(), steps).provider.status == Some(PFulfillService)) <==> flag
  {
    if flag {
      assert NoOverlap(true, Start(), []) && Run(true, Start(), []) == Start();
      NoDeadEnd([]);
    } else {
      forall steps ensures Run(flag, Start(), steps).provider.status != Some(PFulfillService) {
        RunKeepsStalled(Start(), steps);
      }
    }
  }

  // ----- what needs repetition, and what repetition can spoil

  lemma Opened() returns (t: System)
    ensures On(Start(), t) && t.mail == {}
    ensures t.requester == Node(Some(RSendT1Commit), false, []) && t.provider == Node(Some(WaitingRT1Commit), false, [])
  {
    assert NoOverlap(true, Start(), []) && Run(true, Start(), []) == Start();
    t := Go(Start(), Start(), AcceptStart);
    t := Go(Start(), t, ConfirmStart);
  }

  /** The trade opens and the requester's T1 goes out. */
  lemma FirstSent() returns (t: System)
    ensures On(Start(), t)
    ensures t.requester == Node(Some(RSendT1Commit), true, [Send(RSendT1Commit, Sent)])
    ensures t.provider == Node(Some(WaitingRT1Commit), false, []) && t.mail == {Letter(T1Requester)}
  {
    t := Opened();
    t := Go(Start(), t, TickStep(Requester));
    assert t.requester == Node(Some(RSendT1Commit), true, [Send(RSendT1Commit, Ready)]);
    t := Go(Start(), t, TransmitStep(Requester, 0));
  }

  /** And the provider accepts it. */
  lemma FirstAccepted() returns (t: System)
    ensures On(Start(), t)
    ensures t.requester == Node(Some(RSendT1Commit), true, [Send(RSendT1Commit, Sent)])
    ensures t.provider == Node(Some(WaitingRT1Commit), false, [Verify(WaitingRT1Commit, Begun)])
    ensures t.mail == {Letter(T1Requester)}
  {
    t := FirstSent();
    assert !Unbegun(t.provider);
    t := Go(Start(), t, DeliverStep(Letter(T1Requester)));
  }

  /** Accepted once more, verified the first time, begun the second time. */
  lemma RepeatedT1(s: System) returns (t: System, u: System, v: System)
    requires s.provider == Node(Some(WaitingRT1Commit), false, [Verify(WaitingRT1Commit, Begun)])
    requires Letter(T1Requester) in s.mail
    ensures t == Apply(true, s, DeliverStep(Letter(T1Requester)))
    ensures u == Apply(true, t, BeginVerifyStep(Provider, 0)) && v == Apply(true, u, EndVerifyStep(Provider, 0))
    ensures v.provider.status == Some(PSendT1Commit)
    ensures Apply(true, v, BeginVerifyStep(Provider, 1)).provider.status == Some(ProcessingRT1Commit)
  {
    t := Apply(true, s, DeliverStep(Letter(T1Requester)));
    assert t.provider.tasks == [Verify(WaitingRT1Commit, Begun), Verify(WaitingRT1Commit, Begun)];
    u := Apply(true, t, BeginVerifyStep(Provider, 0));
    assert u.provider.tasks == [Verify(WaitingRT1Commit, Checking), Verify(WaitingRT1Commit, Begun)];
    v := Apply(true, u, EndVerifyStep(Provider, 0));
    assert v.provider.tasks == [Verify(WaitingRT1Commit, Checked), Verify(WaitingRT1Commit, Begun)];
  }

  lemma {:induction false} Reaches(o: System, s: System) returns (steps: seq<Step>)
    requires On(o, s)
    ensures Run(true, o, steps) == s
  {
    var before, more :| NoOverlap(true, Start(), before) && Run(true, Start(), before) == o
                        && NoOverlap(true, o, more) && Run(true, o, more) == s;
    steps := more;
  }

  /**
   A run with an overlap in which the status moves back: a repeated T1 accepted before the
   first one's verification begins puts a provider that is to send back to processing.
   */
  lemma {:induction false} OverlapMovesBack()
    ensures exists steps, step ::
              && Run(true, Start(), steps).provider.status == Some(PSendT1Commit)
              && Apply(true, Run(true, Start(), steps), step).provider.status == Some(ProcessingRT1Commit)
  {
    var s := FirstAccepted();
    var first := Reaches(Start(), s);
    var t, u, v := RepeatedT1(s);
    RunSnoc(true, Start(), first, DeliverStep(Letter(T1Requester)));
    RunSnoc(true, Start(), first + [DeliverStep(Letter(T1Requester))], BeginVerifyStep(Provider, 0));
    RunSnoc(true, Start(), first + [DeliverStep(Letter(T1Requester))] + [BeginVerifyStep(Provider, 0)],
            EndVerifyStep(Provider, 0));
  }

  /** Both wait for the other's commit, and nothing is going on. */
  ghost predicate Deadlocked(s: System) {
    && Settled(s.requester) && s.requester.status == Some(WaitingPT1Commit)
    && Settled(s.provider) && s.provider.status == Some(WaitingRT2Commit)
  }

  lemma NothingHappens(s: System, step: Step)
    requires Deadlocked(s) && !step.DeliverStep?
    ensures Deadlocked(Apply(true, s, step))
  {
    match step
    case ReportStep(side, i) =>
      if SendAt(NodeOf(s, side), i, Reported) {
        var n := NodeOf(s, side);
        assert forall j :: 0 <= j < |n.tasks| ==>
                 HandleReport(n, i).tasks[j] == if j == i then n.tasks[i].(sending := Retired) else n.tasks[j];
      }
    case _ =>
  }

  lemma {:induction false} StaysDeadlocked(s: System, steps: seq<Step>)
    requires Deadlocked(s) && forall i :: 0 <= i < |steps| ==> !steps[i].DeliverStep?
    ensures Deadlocked(Run(true, s, steps))
    decreases |steps|
  {
    if steps != [] {
      NothingHappens(s, steps[0]);
      StaysDeadlocked(Apply(true, s, steps[0]), steps[1..]);
    }
  }

  /** The provider has verified the T1 and sent its own. */
  lemma ProviderSent() returns (t: System)
    ensures On(Start(), t)
    ensures t.requester == Node(Some(RSendT1Commit), true, [Send(RSendT1Commit, Sent)])
    ensures Settled(t.provider) && t.provider.status == Some(WaitingRT2Commit)
  {
    t := FirstAccepted();
    t := FinishVerify(Start(), t, Provider, 0);
    t := MakeSend(Start(), t, Provider);
  }

  /** The provider has verified the T1 and sent its own, the requester's send has failed. */
  lemma AnswerLost() returns (t: System)
    ensures On(Start(), t)
    ensures Settled(t.requester) && t.requester.status == Some(RSendT1Commit)
    ensures Settled(t.provider) && t.provider.status == Some(WaitingRT2Commit)
  {
    t := ProviderSent();
    t := Go(Start(), t, FailedStep(Requester, 0));
    t := Go(Start(), t, ReportStep(Requester, 0));
  }

  /**
   An ordered run in which both sides come to wait for each other: the answer to the
   requester's T1 is lost, and each then has its commit refused by the other, which counts
   as an answer. From there on nothing but a message that was sent before, arriving once
   more, changes a status.
   */
  lemma {:induction false} BothCanWaitForGood()
    ensures exists steps ::
              && NoOverlap(true, Start(), steps) && Deadlocked(Run(true, Start(), steps))
              && forall more: seq<Step> :: (forall i :: 0 <= i < |more| ==> !more[i].DeliverStep?) ==>
                   Deadlocked(Run(true, Run(true, Start(), steps), more))
  {
    var t := AnswerLost();
    t := MakeSend(Start(), t, Requester);
    var before, steps :| NoOverlap(true, Start(), before) && Run(true, Start(), before) == Start()
                         && NoOverlap(true, Start(), steps) && Run(true, Start(), steps) == t;
    forall more: seq<Step> | forall i :: 0 <= i < |more| ==> !more[i].DeliverStep?
      ensures Deadlocked(Run(true, Run(true, Start(), steps), more))
    {
      StaysDeadlocked(t, more);
    }
  }
}
