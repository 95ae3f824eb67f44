/**
 A node's event loop, its store of active trades, and the commit procedures it has
 spawned. The objects update their fields in place; seen for one trade, each operation is
 the node step of the same kind in the handshake.
 */
module Indexer {
  import opened Common
  import opened TradeModel
  import opened Handshake

  /** The table of active trades. */
  class Storage {
    var trades: map<nat, Trade>

    constructor ()
      ensures trades == map[]
    {
      trades := map[];
    }

    method AddActiveTrade(trade: Trade)
      modifies this
      ensures trades == old(trades)[trade.id := trade]
    {
      trades := trades[trade.id := trade];
    }

    /** Writes a whole trade back; fails when it is not stored. */
    method UpdateActiveTrade(trade: Trade) returns (ok: bool)
      modifies this
      ensures ok == (trade.id in old(trades))
      ensures trades == if ok then old(trades)[trade.id := trade] else old(trades)
    {
      ok := trade.id in trades;
      if ok {
        trades := trades[trade.id := trade];
      }
    }
  }

  /** The part of a spawned task that runs at once, on the task's own copy of the trade. */
  class CommitProcedure {
    const storage: Storage
    var trade: Trade

    constructor (storage: Storage, trade: Trade)
      ensures this.storage == storage && this.trade == trade
    {
      this.storage := storage;
      this.trade := trade;
    }

    method UpdateTradeWaitingStatus()
      modifies this, storage
      ensures trade == old(trade).(status := AfterSend(old(trade).status))
      ensures storage.trades == if trade.id in old(storage.trades) then old(storage.trades)[trade.id := trade] else old(storage.trades)
    {
      match trade.status {
        case PSendT1Commit => trade := trade.(status := WaitingRT2Commit);
        case RSendT1Commit => trade := trade.(status := WaitingPT1Commit);
        case RSendT2Commit => trade := trade.(status := WaitingForService);
        case _ =>
      }
      var _ := storage.UpdateActiveTrade(trade);
    }

    method UpdateTradeProcessingStatus()
      modifies this, storage
      ensures trade == old(trade).(status := Processing(old(trade).status))
      ensures storage.trades == if trade.id in old(storage.trades) then old(storage.trades)[trade.id := trade] else old(storage.trades)
    {
      match trade.status {
        case WaitingRT1Commit => trade := trade.(status := ProcessingRT1Commit);
        case WaitingPT1Commit => trade := trade.(status := ProcessingPT1Commit);
        case WaitingRT2Commit => trade := trade.(status := ProcessingRT2Commit);
        case _ =>
      }
      var _ := storage.UpdateActiveTrade(trade);
    }

    method UpdateTradeSendStatus()
      modifies this, storage
      ensures trade == old(trade).(status := AfterVerify(old(trade).status))
      ensures storage.trades == if trade.id in old(storage.trades) then old(storage.trades)[trade.id := trade] else old(storage.trades)
    {
      match trade.status {
        case ProcessingRT1Commit => trade := trade.(status := PSendT1Commit);
        case ProcessingPT1Commit => trade := trade.(status := RSendT2Commit);
        case ProcessingRT2Commit => trade := trade.(status := PFulfillService);
        case _ =>
      }
      var _ := storage.UpdateActiveTrade(trade);
    }
  }

  /** A spawned task: its own copy of the trade, and how far it is. */
  datatype Job = Job(trade: Trade, task: Task)

  function TasksIn(jobs: seq<Job>): seq<Task> {
    seq(|jobs|, i requires 0 <= i < |jobs| => jobs[i].task)
  }

  /** The status in a task's copy while it can still write it. */
  function OwnStatus(t: Task): TradeStatus {
    match t
    case Send(snapshot, _) => snapshot
    case Verify(snapshot, Begun) => snapshot
    case Verify(snapshot, _) => Processing(snapshot)
  }

  predicate Finished(t: Task) {
    match t
    case Send(_, phase) => phase == Reported || phase == Retired
    case Verify(_, phase) => phase == Checked
  }

  /** Two copies of one trade, up to the status. */
  predicate SameTrade(a: Trade, b: Trade) {
    a.(status := b.status) == b
  }

  /** The same trades, up to their statuses. */
  ghost predicate SameTrades(a: map<nat, Trade>, b: map<nat, Trade>) {
    a.Keys == b.Keys && forall id :: id in a ==> SameTrade(a[id], b[id])
  }

  ghost predicate JobFits(stored: Trade, job: Job) {
    SameTrade(job.trade, stored) && (Finished(job.task) || job.trade.status == OwnStatus(job.task))
  }

  type Jobs = map<nat, seq<Job>>

  function JobsFor(jobs: Jobs, id: nat): seq<Job> {
    if id in jobs then jobs[id] else []
  }

  ghost predicate TasksFit(trades: map<nat, Trade>, id: nat, tasks: seq<Job>) {
    tasks == [] || (id in trades && forall i :: 0 <= i < |tasks| ==> JobFits(trades[id], tasks[i]))
  }

  /** Trades are stored under their ids, and each task has a copy of its stored trade. */
  ghost predicate Fitting(trades: map<nat, Trade>, jobs: Jobs) {
    && (forall id :: id in trades ==> trades[id].id == id)
    && (forall id :: id in jobs ==> TasksFit(trades, id, jobs[id]))
  }

  lemma TasksAppend(tasks: seq<Job>, job: Job)
    ensures TasksIn(tasks + [job]) == TasksIn(tasks) + [job.task]
  {
    var longer := tasks + [job];
    assert forall i :: 0 <= i < |tasks| ==> longer[i] == tasks[i];
  }

  lemma TasksUpdate(tasks: seq<Job>, i: nat, job: Job)
    requires i < |tasks|
    ensures TasksIn(tasks[i := job]) == TasksIn(tasks)[i := job.task]
  {
    var after := tasks[i := job];
    assert forall k :: 0 <= k < |tasks| ==> after[k] == if k == i then job else tasks[k];
  }

  lemma SpawnFits(trades: map<nat, Trade>, jobs: Jobs, id: nat, job: Job)
    requires Fitting(trades, jobs) && id in trades && JobFits(trades[id], job)
    ensures Fitting(trades, jobs[id := JobsFor(jobs, id) + [job]])
    ensures TasksIn(JobsFor(jobs, id) + [job]) == TasksIn(JobsFor(jobs, id)) + [job.task]
  {
    var tasks := JobsFor(jobs, id);
    TasksAppend(tasks, job);
    assert TasksFit(trades, id, tasks);
    forall i | 0 <= i < |tasks + [job]| ensures JobFits(trades[id], (tasks + [job])[i]) {
      assert i < |tasks| ==> (tasks + [job])[i] == tasks[i];
    }
  }

  lemma SameToBoth(a: Trade, b: Trade, c: Trade)
    requires SameTrade(a, c) && SameTrade(b, c)
    ensures SameTrade(a, b) && SameTrade(b, a)
  {}

  /** Storing a copy of a trade again keeps every task's copy one of it. */
  lemma StoreFits(trades: map<nat, Trade>, jobs: Jobs, trade: Trade)
    requires Fitting(trades, jobs) && (trade.id in trades ==> SameTrade(trade, trades[trade.id]))
    ensures Fitting(trades[trade.id := trade], jobs)
  {
    var after := trades[trade.id := trade];
    forall id | id in jobs ensures TasksFit(after, id, jobs[id]) {
      assert TasksFit(trades, id, jobs[id]);
      forall i | 0 <= i < |jobs[id]| ensures id in after && JobFits(after[id], jobs[id][i]) {
        assert JobFits(trades[id], jobs[id][i]);
        if id == trade.id {
          SameToBoth(jobs[id][i].trade, trade, trades[id]);
        }
      }
    }
  }

  /** A task that moves on, leaving the store or writing its copy to it. */
  lemma MoveFits(trades: map<nat, Trade>, jobs: Jobs, id: nat, i: nat, job: Job)
    requires Fitting(trades, jobs) && i < |JobsFor(jobs, id)| && id in trades && JobFits(trades[id], job)
    ensures Fitting(trades, jobs[id := jobs[id][i := job]])
    ensures Fitting(trades[id := job.trade], jobs[id := jobs[id][i := job]])
    ensures TasksIn(jobs[id][i := job]) == TasksIn(jobs[id])[i := job.task]
  {
    var tasks := jobs[id][i := job];
    var moved := jobs[id := tasks];
    TasksUpdate(jobs[id], i, job);
    assert TasksFit(trades, id, jobs[id]);
    forall k | 0 <= k < |tasks| ensures JobFits(trades[id], tasks[k]) {
      assert tasks[k] == if k == i then job else jobs[id][k];
    }
    assert Fitting(trades, moved);
    StoreFits(trades, moved, job.trade);
  }

  class Indexer {
    const storage: Storage
    var activeSendCommitProc: set<nat>
    /** tasks spawned so far, by trade */
    var jobs: Jobs

    constructor (storage: Storage)
      ensures this.storage == storage && activeSendCommitProc == {} && jobs == map[]
    {
      this.storage := storage;
      activeSendCommitProc := {};
      jobs := map[];
    }

    /** The handshake's node for one trade. */
    ghost function View(id: nat): Node
      reads this, storage
    {
      Node(if id in storage.trades then Some(storage.trades[id].status) else None,
           id in activeSendCommitProc,
           TasksIn(JobsFor(jobs, id)))
    }

    ghost predicate Valid()
      reads this, storage
    {
      Fitting(storage.trades, jobs)
    }

    method Spawn(id: nat, job: Job)
      requires Valid() && id in storage.trades && JobFits(storage.trades[id], job)
      modifies this`jobs
      ensures Valid()
      ensures View(id) == old(View(id)).(tasks := old(View(id)).tasks + [job.task])
      ensures forall x :: x != id ==> View(x) == old(View(x))
    {
      SpawnFits(storage.trades, jobs, id, job);
      jobs := jobs[id := JobsFor(jobs, id) + [job]];
    }

    /** One tick starts a send for every trade that needs one and has none. */
    method Tick()
      requires Valid()
      modifies this
      ensures Valid()
      ensures forall id :: View(id) == TickNode(old(View(id)))
    {
      var remaining := storage.trades.Keys;
      while remaining != {}
        invariant remaining <= storage.trades.Keys
        invariant Valid()
        invariant forall id :: id in remaining ==> View(id) == old(View(id))
        invariant forall id :: id !in remaining ==> View(id) == TickNode(old(View(id)))
        decreases remaining
      {
        var id :| id in remaining;
        var trade := storage.trades[id];
        label before:
        if trade.IsSendingStatus() && id !in activeSendCommitProc {
          activeSendCommitProc := activeSendCommitProc + {id};
          Spawn(id, Job(trade, Task.Send(trade.status, Ready)));
        }
        assert forall x :: x != id ==> View(x) == old@before(View(x));
        assert View(id) == TickNode(old(View(id)));
        remaining := remaining - {id};
      }
    }

    /** A send makes its request, to the counter party of its own copy of the trade. */
    method Transmit(id: nat, i: nat) returns (kind: Kind, to: PeerId)
      requires Valid() && SendAt(View(id), i, Ready) && SendRequest(View(id).tasks[i].snapshot).Some?
      modifies this`jobs
      ensures Valid()
      ensures Some(kind) == SendRequest(old(View(id)).tasks[i].snapshot) && to == storage.trades[id].CounterParty()
      ensures View(id) == Handshake.Transmit(old(View(id)), i)
      ensures forall x :: x != id ==> View(x) == old(View(x))
    {
      var job := jobs[id][i];
      kind, to := SendRequest(job.trade.status).value, job.trade.CounterParty();
      MoveFits(storage.trades, jobs, id, i, job.(task := job.task.(sending := Sent)));
      jobs := jobs[id := jobs[id][i := job.(task := job.task.(sending := Sent))]];
    }

    /** Its request is answered, also by a refusal. */
    method Answered(id: nat, i: nat)
      requires Valid() && SendAt(View(id), i, Sent)
      modifies this`jobs, storage
      ensures Valid()
      ensures SameTrades(storage.trades, old(storage.trades))
      ensures View(id) == Handshake.Answered(old(View(id)), i)
      ensures forall x :: x != id ==> View(x) == old(View(x))
    {
      var job := jobs[id][i];
      ghost var before := storage.trades;
      var proc := new CommitProcedure(storage, job.trade);
      proc.UpdateTradeWaitingStatus();
      MoveFits(before, jobs, id, i, Job(proc.trade, job.task.(sending := Reported)));
      jobs := jobs[id := jobs[id][i := Job(proc.trade, job.task.(sending := Reported))]];
    }

    /** Its request fails, and the trade stays as it is. */
    method Failed(id: nat, i: nat)
      requires Valid() && SendAt(View(id), i, Sent)
      modifies this`jobs
      ensures Valid()
      ensures View(id) == Handshake.Failed(old(View(id)), i)
      ensures forall x :: x != id ==> View(x) == old(View(x))
    {
      var job := jobs[id][i];
      MoveFits(storage.trades, jobs, id, i, job.(task := job.task.(sending := Reported)));
      jobs := jobs[id := jobs[id][i := job.(task := job.task.(sending := Reported))]];
    }

    /** Either result of a send takes the mark away. */
    method HandleProcedureEvent(id: nat, i: nat)
      requires Valid() && SendAt(View(id), i, Reported)
      modifies this
      ensures Valid()
      ensures View(id) == HandleReport(old(View(id)), i)
      ensures forall x :: x != id ==> View(x) == old(View(x))
    {
      activeSendCommitProc := activeSendCommitProc - {id};
      var job := jobs[id][i];
      MoveFits(storage.trades, jobs, id, i, job.(task := job.task.(sending := Retired)));
      jobs := jobs[id := jobs[id][i := job.(task := job.task.(sending := Retired))]];
    }

    /** A received trade is stored as it came, to be answered with a T1. */
    method HandleStartCommit(trade: Trade)
      modifies storage
      ensures storage.trades == old(storage.trades)[trade.id := trade.(status := RSendT1Commit)]
      ensures old(Valid()) && (trade.id in old(storage.trades) ==> SameTrade(trade, old(storage.trades)[trade.id])) ==> Valid()
      ensures View(trade.id) == old(View(trade.id)).(status := Some(RSendT1Commit))
      ensures forall x :: x != trade.id ==> View(x) == old(View(x))
    {
      ghost var before := storage.trades;
      storage.AddActiveTrade(trade.(status := RSendT1Commit));
      if Fitting(before, jobs) && (trade.id in before ==> SameTrade(trade, before[trade.id])) {
        StoreFits(before, jobs, trade.(status := RSendT1Commit));
      }
    }

    /** Accepted exactly in the awaiting status and from the counter party. */
    method HandleCommit(kind: Kind, id: nat, sender: PeerId) returns (ack: bool)
      requires Valid()
      modifies this`jobs
      ensures Valid()
      ensures ack <==>
                && id in storage.trades
                && storage.trades[id].status == AwaitedIn(kind)
                && storage.trades[id].CounterParty() == sender
      ensures ack ==> View(id) == Accept(old(View(id)))
      ensures forall x :: x != id || !ack ==> View(x) == old(View(x))
    {
      if id !in storage.trades {
        return false;
      }
      var trade := storage.trades[id];
      ack := trade.status == AwaitedIn(kind) && trade.CounterParty() == sender;
      if ack {
        Spawn(id, Job(trade, Task.Verify(trade.status, Begun)));
      }
    }

    /** A verification begins: from waiting to processing. */
    method BeginVerify(id: nat, i: nat)
      requires Valid() && VerifyAt(View(id), i, Begun)
      modifies this`jobs, storage
      ensures Valid()
      ensures SameTrades(storage.trades, old(storage.trades))
      ensures View(id) == Handshake.BeginVerify(old(View(id)), i)
      ensures forall x :: x != id ==> View(x) == old(View(x))
    {
      var job := jobs[id][i];
      ghost var before := storage.trades;
      var proc := new CommitProcedure(storage, job.trade);
      proc.UpdateTradeProcessingStatus();
      MoveFits(before, jobs, id, i, Job(proc.trade, job.task.(verifying := Checking)));
      jobs := jobs[id := jobs[id][i := Job(proc.trade, job.task.(verifying := Checking))]];
    }

    /** A verification ends: from processing to sending. */
    method EndVerify(id: nat, i: nat)
      requires Valid() && VerifyAt(View(id), i, Checking)
      modifies this`jobs, storage
      ensures Valid()
      ensures SameTrades(storage.trades, old(storage.trades))
      ensures View(id) == Handshake.EndVerify(old(View(id)), i)
      ensures forall x :: x != id ==> View(x) == old(View(x))
    {
      var job := jobs[id][i];
      ghost var before := storage.trades;
      var proc := new CommitProcedure(storage, job.trade);
      proc.UpdateTradeSendStatus();
      MoveFits(before, jobs, id, i, Job(proc.trade, job.task.(verifying := Checked)));
      jobs := jobs[id := jobs[id][i := Job(proc.trade, job.task.(verifying := Checked))]];
    }
  }
}
