/**
 One writer at a time. The stored status moves forward only, and no task acts on a
 stale snapshot, as long as no commit is accepted while an accepted one has not yet
 begun its verification; and that condition is exactly what is needed.
 */
module HandshakeOrder {
  import opened Common
  import opened TradeModel
  import opened Handshake
  import opened HandshakeCausality

  /** It can still write the trade. */
  predicate Writer(t: Task) {
    match t
    case Send(_, phase) => phase == Ready || phase == Sent
    case Verify(_, phase) => phase == Begun || phase == Checking
  }

  /** The send holds the active mark: it may still act, or its result is queued. */
  predicate Pending(t: Task) {
    t.Send? && t.sending != Retired
  }

  /** The stored status is the one that it works from. */
  predicate UpToDate(n: Node, t: Task) {
    match t
    case Send(snapshot, _) => n.status == Some(snapshot) && IsSending(snapshot)
    case Verify(snapshot, Begun) => n.status == Some(snapshot) && IsWaiting(snapshot)
    case Verify(snapshot, _) => n.status == Some(Processing(snapshot)) && IsWaiting(snapshot)
  }

  ghost predicate SingleSend(n: Node) {
    && (forall i, j :: 0 <= i < j < |n.tasks| ==> !(Pending(n.tasks[i]) && Pending(n.tasks[j])))
    && (n.active <==> exists i :: 0 <= i < |n.tasks| && Pending(n.tasks[i]))
  }

  ghost predicate SingleWriter(n: Node) {
    && (forall i, j :: 0 <= i < j < |n.tasks| ==> !(Writer(n.tasks[i]) && Writer(n.tasks[j])))
    && (forall i :: 0 <= i < |n.tasks| && Writer(n.tasks[i]) ==> UpToDate(n, n.tasks[i]))
  }

  ghost predicate Ordered(s: System) {
    SingleWriter(s.requester) && SingleWriter(s.provider)
  }

  // ----- at most one send, always

  lemma ReplaceKeepsSingleSend(n: Node, i: nat, t: Task, status: Option<TradeStatus>)
    requires SingleSend(n) && i < |n.tasks| && Pending(n.tasks[i]) == Pending(t)
    ensures SingleSend(n.(status := status, tasks := n.tasks[i := t]))
  {
    var tasks := n.tasks[i := t];
    assert forall j :: 0 <= j < |tasks| ==> Pending(tasks[j]) == Pending(n.tasks[j]);
  }

  lemma SpawnKeepsSingleSend(n: Node)
    requires SingleSend(n)
    ensures SingleSend(TickNode(n))
    ensures n.status.Some? ==> SingleSend(Accept(n))
  {
    var t := TickNode(n);
    if t != n {
      assert Pending(t.tasks[|n.tasks|]);
    }
    if n.status.Some? {
      var a := Accept(n);
      assert forall i :: 0 <= i < |n.tasks| ==> a.tasks[i] == n.tasks[i];
      assert !Pending(a.tasks[|n.tasks|]);
    }
  }

  lemma NodeStepsKeepSingleSend(n: Node, i: nat)
    requires SingleSend(n)
    ensures SendAt(n, i, Ready) ==> SingleSend(Transmit(n, i))
    ensures SendAt(n, i, Sent) ==> SingleSend(Answered(n, i)) && SingleSend(Failed(n, i))
    ensures VerifyAt(n, i, Begun) ==> SingleSend(BeginVerify(n, i))
    ensures VerifyAt(n, i, Checking) ==> SingleSend(EndVerify(n, i))
  {
    if SendAt(n, i, Ready) {
      ReplaceKeepsSingleSend(n, i, n.tasks[i].(sending := Sent), n.status);
    } else if SendAt(n, i, Sent) {
      ReplaceKeepsSingleSend(n, i, n.tasks[i].(sending := Reported), n.status);
      ReplaceKeepsSingleSend(n, i, n.tasks[i].(sending := Reported), Answered(n, i).status);
    } else if VerifyAt(n, i, Begun) {
      ReplaceKeepsSingleSend(n, i, n.tasks[i].(verifying := Checking), BeginVerify(n, i).status);
    } else if VerifyAt(n, i, Checking) {
      ReplaceKeepsSingleSend(n, i, n.tasks[i].(verifying := Checked), EndVerify(n, i).status);
    }
  }

  lemma ReportKeepsSingleSend(n: Node, i: nat)
    requires SingleSend(n) && SendAt(n, i, Reported)
    ensures SingleSend(HandleReport(n, i))
  {
    assert Pending(n.tasks[i]);
    var h := HandleReport(n, i);
    forall j | 0 <= j < |h.tasks| ensures !Pending(h.tasks[j]) {
      if j != i {
        assert h.tasks[j] == n.tasks[j];
      }
    }
  }

  lemma {:induction false} ApplyKeepsSingleSend(flag: bool, s: System, step: Step)
    requires SingleSend(s.requester) && SingleSend(s.provider)
    ensures SingleSend(Apply(flag, s, step).requester) && SingleSend(Apply(flag, s, step).provider)
  {
    match step
    case AcceptStart =>
    case ConfirmStart =>
    case InjectStep(_) =>
    case ReportStep(side, i) =>
      if SendAt(NodeOf(s, side), i, Reported) { ReportKeepsSingleSend(NodeOf(s, side), i); }
    case DeliverStep(m) => SpawnKeepsSingleSend(NodeOf(s, m.to));
    case TickStep(side) => SpawnKeepsSingleSend(NodeOf(s, side));
    case TransmitStep(side, i) => NodeStepsKeepSingleSend(NodeOf(s, side), i);
    case AnsweredStep(side, i) => NodeStepsKeepSingleSend(NodeOf(s, side), i);
    case FailedStep(side, i) => NodeStepsKeepSingleSend(NodeOf(s, side), i);
    case BeginVerifyStep(side, i) => NodeStepsKeepSingleSend(NodeOf(s, side), i);
    case EndVerifyStep(side, i) => NodeStepsKeepSingleSend(NodeOf(s, side), i);
  }

  /** In every run a node has at most one send of the trade, and marks it as active. */
  lemma {:induction false} AtMostOneSend(flag: bool, s: System, steps: seq<Step>, side: Side)
    requires SingleSend(s.requester) && SingleSend(s.provider)
    ensures SingleSend(NodeOf(Run(flag, s, steps), side))
    decreases |steps|
  {
    if steps != [] {
      ApplyKeepsSingleSend(flag, s, steps[0]);
      AtMostOneSend(flag, Apply(flag, s, steps[0]), steps[1..], side);
    }
  }

  // ----- one writer, exactly when acceptances do not overlap

  ghost predicate Unbegun(n: Node) {
    exists i: nat :: VerifyAt(n, i, Begun)
  }

  /** The step accepts a commit while an accepted one has not begun its verification. */
  ghost predicate Overlaps(flag: bool, s: System, step: Step) {
    && step.DeliverStep?
    && step.message in s.mail
    && Accepts(NodeOf(s, step.message.to), CounterPartyOf(flag, step.message.to), step.message)
    && Unbegun(NodeOf(s, step.message.to))
  }

  ghost predicate OrderInv(s: System) {
    && Ordered(s) && SingleSend(s.requester) && SingleSend(s.provider)
    && (s.requester.status.None? ==> s.requester.tasks == [])
    && (s.provider.status.None? ==> s.provider.tasks == [])
  }

  lemma TickKeepsWriter(n: Node)
    requires SingleWriter(n) && SingleSend(n)
    ensures SingleWriter(TickNode(n))
  {
    var t := TickNode(n);
    if t != n {
      assert forall i :: 0 <= i < |n.tasks| ==> !Pending(n.tasks[i]);
      assert forall i :: 0 <= i < |n.tasks| ==> t.tasks[i] == n.tasks[i];
    }
  }

  /** A writer that acts writes from the stored status, and others do not write. */
  lemma WriterActs(n: Node, i: nat, status: TradeStatus, t: Task)
    requires SingleWriter(n) && i < |n.tasks| && Writer(n.tasks[i])
    requires Writer(t) ==> UpToDate(n.(status := Some(status)), t)
    ensures SingleWriter(n.(status := Some(status), tasks := n.tasks[i := t]))
  {
    var m := n.(status := Some(status), tasks := n.tasks[i := t]);
    forall j | 0 <= j < |m.tasks| && j != i ensures !Writer(m.tasks[j]) {
      assert m.tasks[j] == n.tasks[j];
      assert !(Writer(n.tasks[i]) && Writer(n.tasks[j]));
    }
  }

  lemma NodeStepsKeepWriter(n: Node, i: nat)
    requires SingleWriter(n)
    ensures SendAt(n, i, Ready) ==> SingleWriter(Transmit(n, i))
    ensures SendAt(n, i, Sent) ==> SingleWriter(Answered(n, i)) && SingleWriter(Failed(n, i))
    ensures VerifyAt(n, i, Begun) ==> SingleWriter(BeginVerify(n, i))
    ensures VerifyAt(n, i, Checking) ==> SingleWriter(EndVerify(n, i))
  {
    if i < |n.tasks| && Writer(n.tasks[i]) {
      var t := n.tasks[i];
      assert UpToDate(n, t);
      if SendAt(n, i, Ready) {
        WriterActs(n, i, t.snapshot, t.(sending := Sent));
      } else if SendAt(n, i, Sent) {
        WriterActs(n, i, t.snapshot, t.(sending := Reported));
        WriterActs(n, i, AfterSend(t.snapshot), t.(sending := Reported));
      } else if VerifyAt(n, i, Begun) {
        WriterActs(n, i, Processing(t.snapshot), t.(verifying := Checking));
      } else {
        WriterActs(n, i, AfterVerify(Processing(t.snapshot)), t.(verifying := Checked));
      }
    }
  }

  lemma ReportKeepsWriter(n: Node, i: nat)
    requires SingleWriter(n) && SendAt(n, i, Reported)
    ensures SingleWriter(HandleReport(n, i))
  {
    var h := HandleReport(n, i);
    assert forall j :: 0 <= j < |h.tasks| && j != i ==> h.tasks[j] == n.tasks[j];
    assert !Writer(h.tasks[i]);
  }

  /** Accepting keeps a single writer exactly when no accepted commit is unbegun. */
  lemma AcceptKeepsWriterIff(n: Node, k: Kind)
    requires SingleWriter(n) && n.status == Some(AwaitedIn(k))
    ensures SingleWriter(Accept(n)) <==> !Unbegun(n)
  {
    var a := Accept(n);
    assert forall i :: 0 <= i < |n.tasks| ==> a.tasks[i] == n.tasks[i];
    assert Writer(a.tasks[|n.tasks|]) && UpToDate(a, a.tasks[|n.tasks|]);
    if Unbegun(n) {
      var i: nat :| VerifyAt(n, i, Begun);
      assert Writer(a.tasks[i]) && Writer(a.tasks[|n.tasks|]);
    } else {
      forall i | 0 <= i < |n.tasks| ensures !Writer(n.tasks[i]) {
        assert !VerifyAt(n, i, Begun);
        assert Writer(n.tasks[i]) ==> UpToDate(n, n.tasks[i]);
      }
    }
  }

  /** A step keeps one up-to-date writer on both sides exactly when it does not overlap. */
  lemma {:induction false} OrderKeptIff(flag: bool, s: System, step: Step)
    requires OrderInv(s)
    ensures Ordered(Apply(flag, s, step)) <==> !Overlaps(flag, s, step)
  {
    match step
    case AcceptStart =>
    case ConfirmStart =>
    case InjectStep(_) =>
    case ReportStep(side, i) =>
      if SendAt(NodeOf(s, side), i, Reported) { ReportKeepsWriter(NodeOf(s, side), i); }
    case DeliverStep(m) =>
      if NodeOf(s, m.to).status == Some(AwaitedIn(m.kind)) { AcceptKeepsWriterIff(NodeOf(s, m.to), m.kind); }
    case TickStep(side) => TickKeepsWriter(NodeOf(s, side));
    case TransmitStep(side, i) => NodeStepsKeepWriter(NodeOf(s, side), i);
    case AnsweredStep(side, i) => NodeStepsKeepWriter(NodeOf(s, side), i);
    case FailedStep(side, i) => NodeStepsKeepWriter(NodeOf(s, side), i);
    case BeginVerifyStep(side, i) => NodeStepsKeepWriter(NodeOf(s, side), i);
    case EndVerifyStep(side, i) => NodeStepsKeepWriter(NodeOf(s, side), i);
  }

  // ----- forward only

  /** How far along its role's chain a status is. */
  function Rank(s: Option<TradeStatus>): nat {
    match s
    case None => 0
    case Some(WaitingRT1Commit) => 1
    case Some(ProcessingRT1Commit) => 2
    case Some(PSendT1Commit) => 3
    case Some(WaitingRT2Commit) => 4
    case Some(ProcessingRT2Commit) => 5
    case Some(PFulfillService) => 6
    case Some(RSendT1Commit) => 1
    case Some(WaitingPT1Commit) => 2
    case Some(ProcessingPT1Commit) => 3
    case Some(RSendT2Commit) => 4
    case Some(WaitingForService) => 5
    case Some(WaitingInvalidatingSignatures) => 7
  }

  ghost predicate NoOverlap(flag: bool, s: System, steps: seq<Step>)
    decreases |steps|
  {
    steps != [] ==> !Overlaps(flag, s, steps[0]) && NoOverlap(flag, Apply(flag, s, steps[0]), steps[1..])
  }

  /** An up-to-date writer moves the status one place along its chain. */
  lemma WriterMovesForward(n: Node, i: nat)
    requires SingleWriter(n)
    ensures SendAt(n, i, Sent) ==> Rank(n.status) <= Rank(Answered(n, i).status) <= Rank(n.status) + 1
    ensures VerifyAt(n, i, Begun) ==> Rank(n.status) <= Rank(BeginVerify(n, i).status) <= Rank(n.status) + 1
    ensures VerifyAt(n, i, Checking) ==> Rank(n.status) <= Rank(EndVerify(n, i).status) <= Rank(n.status) + 1
  {
    if i < |n.tasks| && Writer(n.tasks[i]) {
      assert UpToDate(n, n.tasks[i]);
    }
  }

  lemma StepMovesForward(flag: bool, s: System, step: Step, side: Side)
    requires OrderInv(s)
    ensures Rank(NodeOf(s, side).status) <= Rank(NodeOf(Apply(flag, s, step), side).status)
    ensures Rank(NodeOf(Apply(flag, s, step), side).status) <= Rank(NodeOf(s, side).status) + 1
  {
    match step
    case AnsweredStep(at, i) => WriterMovesForward(NodeOf(s, at), i);
    case BeginVerifyStep(at, i) => WriterMovesForward(NodeOf(s, at), i);
    case EndVerifyStep(at, i) => WriterMovesForward(NodeOf(s, at), i);
    case _ =>
  }

  lemma {:induction false} OrderInvStep(flag: bool, s: System, step: Step)
    requires OrderInv(s) && !Overlaps(flag, s, step)
    ensures OrderInv(Apply(flag, s, step))
  {
    OrderKeptIff(flag, s, step);
    ApplyKeepsSingleSend(flag, s, step);
  }

  /** Every trade starts in such a state. */
  lemma StartIsOrdered()
    ensures OrderInv(Start())
  {}

  /** At every step of a run the status of a side stays or moves on. */
  ghost predicate MovesForward(flag: bool, s: System, steps: seq<Step>, side: Side)
    decreases |steps|
  {
    steps != [] ==>
      var t := Apply(flag, s, steps[0]);
      Rank(NodeOf(s, side).status) <= Rank(NodeOf(t, side).status) && MovesForward(flag, t, steps[1..], side)
  }

  /**
   In every run without overlapping acceptances each node has at most one task that can
   still write the trade, that task's snapshot is current, and the stored status never
   moves back.
   */
  lemma {:induction false} StatusOnlyMovesForward(flag: bool, s: System, steps: seq<Step>, side: Side)
    requires OrderInv(s) && NoOverlap(flag, s, steps)
    ensures SingleWriter(NodeOf(Run(flag, s, steps), side))
    ensures MovesForward(flag, s, steps, side)
    ensures Rank(NodeOf(s, side).status) <= Rank(NodeOf(Run(flag, s, steps), side).status)
    decreases |steps|
  {
    if steps != [] {
      OrderInvStep(flag, s, steps[0]);
      StepMovesForward(flag, s, steps[0], side);
      StatusOnlyMovesForward(flag, Apply(flag, s, steps[0]), steps[1..], side);
    }
  }

  // ----- and only then

  /** Two verifications of one waiting status, neither begun. */
  predicate TwoUnbegun(n: Node, i: nat, j: nat) {
    && i < j && VerifyAt(n, i, Begun) && VerifyAt(n, j, Begun)
    && IsWaiting(n.tasks[i].snapshot) && n.tasks[j].snapshot == n.tasks[i].snapshot
  }

  lemma OverlapLeavesTwo(flag: bool, s: System, step: Step) returns (i: nat, j: nat)
    requires OrderInv(s) && Overlaps(flag, s, step)
    ensures TwoUnbegun(NodeOf(Apply(flag, s, step), step.message.to), i, j)
  {
    var n := NodeOf(s, step.message.to);
    i :| VerifyAt(n, i, Begun);
    j := |n.tasks|;
    assert UpToDate(n, n.tasks[i]);
    assert Accept(n).tasks[i] == n.tasks[i];
  }

  /** The first runs to its end, then the other begins from its old snapshot. */
  function OneThenOther(side: Side, i: nat, j: nat): seq<Step> {
    [BeginVerifyStep(side, i)] + ([EndVerifyStep(side, i)] + [BeginVerifyStep(side, j)])
  }

  lemma TwoUnbegunFallBack(flag: bool, s: System, side: Side, i: nat, j: nat)
    requires TwoUnbegun(NodeOf(s, side), i, j)
    ensures NoOverlap(flag, s, OneThenOther(side, i, j)) && !MovesForward(flag, s, OneThenOther(side, i, j), side)
  {
    var all := OneThenOther(side, i, j);
    var two := [EndVerifyStep(side, i)] + [BeginVerifyStep(side, j)];
    var one := [BeginVerifyStep(side, j)];
    var t := Apply(flag, s, all[0]);
    var u := Apply(flag, t, two[0]);
    var v := Apply(flag, u, one[0]);
    assert all[1..] == two && two[1..] == one && one[1..] == [];
    var snapshot := NodeOf(s, side).tasks[i].snapshot;
    assert NodeOf(u, side).status == Some(AfterVerify(Processing(snapshot)));
    assert NodeOf(v, side).status == Some(Processing(snapshot));
    assert NoOverlap(flag, v, []) && NoOverlap(flag, u, one) && NoOverlap(flag, t, two);
    assert !MovesForward(flag, u, one, side);
    assert !MovesForward(flag, t, two, side);
  }

  /** Whatever happens from here, short of an overlapping acceptance, both statuses move forward. */
  ghost predicate SafeFrom(flag: bool, s: System) {
    forall more, side :: NoOverlap(flag, s, more) ==> MovesForward(flag, s, more, side)
  }

  /**
   From an ordered state, a step leaves both statuses moving forward in all runs without
   further overlaps exactly when the step itself does not accept a commit while an accepted
   one is unbegun.
   */
  lemma {:induction false} ForwardIffNoOverlap(flag: bool, s: System, step: Step)
    requires OrderInv(s)
    ensures SafeFrom(flag, Apply(flag, s, step)) <==> !Overlaps(flag, s, step)
  {
    var t := Apply(flag, s, step);
    if Overlaps(flag, s, step) {
      var i, j := OverlapLeavesTwo(flag, s, step);
      TwoUnbegunFallBack(flag, t, step.message.to, i, j);
    } else {
      OrderInvStep(flag, s, step);
      forall more, side | NoOverlap(flag, t, more) ensures MovesForward(flag, t, more, side) {
        StatusOnlyMovesForward(flag, t, more, side);
      }
    }
  }
}
