/**
 The two nodes of one trade as objects, and the network between them. Every step of the
 handshake is an operation of their event loops or of a task, so what is proved of the
 handshake's runs holds of these objects.
 */
module Nodes {
  import opened Common
  import opened TradeModel
  import opened Handshake
  import opened HandshakeCausality
  import opened Indexer

  class Nodes {
    const requester: Indexer
    const provider: Indexer
    /** the trade as the provider makes it */
    const trade: Trade
    /** the flag in the requester's copy */
    const flag: bool
    const outsider: PeerId
    var mail: set<Message>
    var log: seq<Event>

    ghost predicate Valid()
      reads this, requester, requester.storage, provider, provider.storage
    {
      && requester != provider && requester.storage != provider.storage
      && requester.Valid() && provider.Valid()
      && trade.requesterId != trade.providerId && outsider != trade.requesterId && outsider != trade.providerId
      && (trade.id in requester.storage.trades ==> SameTrade(requester.storage.trades[trade.id], CopyAt(Requester)))
      && (trade.id in provider.storage.trades ==> SameTrade(provider.storage.trades[trade.id], CopyAt(Provider)))
    }

    function CopyAt(side: Side): Trade {
      trade.(isRequester := side == Requester && flag)
    }

    function IndexerAt(side: Side): Indexer {
      match side case Requester => requester case Provider => provider
    }

    function PeerOf(sender: Sender): PeerId {
      match sender
      case Outsider => outsider
      case Party(Requester) => trade.requesterId
      case Party(Provider) => trade.providerId
    }

    /** The state of the handshake that these objects are in. */
    ghost function Joint(): System
      reads this, requester, requester.storage, provider, provider.storage
    {
      Handshake.System(requester.View(trade.id), provider.View(trade.id), mail, log)
    }

    constructor (trade: Trade, flag: bool, outsider: PeerId)
      requires trade.requesterId != trade.providerId && outsider != trade.requesterId && outsider != trade.providerId
      ensures Valid() && Joint() == Start()
      ensures this.trade == trade && this.flag == flag
      ensures fresh(requester) && fresh(requester.storage) && fresh(provider) && fresh(provider.storage)
    {
      var atRequester := new Storage();
      var atProvider := new Storage();
      requester := new Indexer(atRequester);
      provider := new Indexer(atProvider);
      this.trade, this.flag, this.outsider := trade, flag, outsider;
      mail, log := {}, [];
    }

    /** The provider's StartCommit: the requester takes the first one for the trade. */
    method Open(side: Side)
      requires Valid()
      modifies requester.storage, provider.storage
      ensures Valid()
      ensures Joint() == Apply(flag, old(Joint()), if side == Requester then AcceptStart else ConfirmStart)
    {
      if side == Requester {
        if trade.id !in requester.storage.trades {
          requester.HandleStartCommit(CopyAt(Requester));
        }
      } else if trade.id in requester.storage.trades && trade.id !in provider.storage.trades {
        provider.storage.AddActiveTrade(CopyAt(Provider).(status := WaitingRT1Commit));
      }
    }

    method SendMessage(side: Side, i: nat)
      requires Valid()
      modifies this, requester`jobs, provider`jobs
      ensures Valid()
      ensures Joint() == Apply(flag, old(Joint()), TransmitStep(side, i))
    {
      var node := IndexerAt(side);
      if i < |JobsFor(node.jobs, trade.id)| {
        var task := node.jobs[trade.id][i].task;
        if task.Send? && task.sending == Ready && SendRequest(task.snapshot).Some? {
          var kind, to := node.Transmit(trade.id, i);
          mail := mail + {Message(kind, Party(side), if to == trade.requesterId then Requester else Provider)};
          log := log + [Transmitted(kind)];
        }
      }
    }

    method Deliver(m: Message)
      requires Valid()
      modifies this, requester`jobs, provider`jobs
      ensures Valid()
      ensures Joint() == Apply(flag, old(Joint()), DeliverStep(m))
    {
      if m in mail {
        ghost var before := Joint();
        var ack := IndexerAt(m.to).HandleCommit(m.kind, trade.id, PeerOf(m.from));
        assert ack <==> Accepts(NodeOf(before, m.to), CounterPartyOf(flag, m.to), m);
        if ack {
          log := log + [Accepted(m.kind)];
        }
      }
    }

    /** A step of a send that has made its request. */
    method FinishSend(side: Side, i: nat, step: Step)
      requires Valid() && step in {AnsweredStep(side, i), FailedStep(side, i), ReportStep(side, i)}
      modifies requester, requester.storage, provider, provider.storage
      ensures Valid()
      ensures Joint() == Apply(flag, old(Joint()), step)
    {
      var node := IndexerAt(side);
      if i < |JobsFor(node.jobs, trade.id)| {
        var task := node.jobs[trade.id][i].task;
        if task.Send? && task.sending == Sent && step.AnsweredStep? {
          node.Answered(trade.id, i);
        } else if task.Send? && task.sending == Sent && step.FailedStep? {
          node.Failed(trade.id, i);
        } else if task.Send? && task.sending == Reported && step.ReportStep? {
          node.HandleProcedureEvent(trade.id, i);
        }
      }
    }

    method Verify(side: Side, i: nat, step: Step)
      requires Valid() && step in {BeginVerifyStep(side, i), EndVerifyStep(side, i)}
      modifies requester, requester.storage, provider, provider.storage
      ensures Valid()
      ensures Joint() == Apply(flag, old(Joint()), step)
    {
      var node := IndexerAt(side);
      if i < |JobsFor(node.jobs, trade.id)| {
        var task := node.jobs[trade.id][i].task;
        if task.Verify? && task.verifying == Begun && step.BeginVerifyStep? {
          node.BeginVerify(trade.id, i);
        } else if task.Verify? && task.verifying == Checking && step.EndVerifyStep? {
          node.EndVerify(trade.id, i);
        }
      }
    }

    method Perform(step: Step)
      requires Valid()
      modifies this, requester, requester.storage, provider, provider.storage
      ensures Valid()
      ensures Joint() == Apply(flag, old(Joint()), step)
    {
      match step
      case AcceptStart => Open(Requester);
      case ConfirmStart => Open(Provider);
      case TickStep(side) => IndexerAt(side).Tick();
      case TransmitStep(side, i) => SendMessage(side, i);
      case AnsweredStep(side, i) => FinishSend(side, i, step);
      case FailedStep(side, i) => FinishSend(side, i, step);
      case ReportStep(side, i) => FinishSend(side, i, step);
      case InjectStep(m) =>
        if m.from == Outsider {
          mail := mail + {m};
        }
      case DeliverStep(m) => Deliver(m);
      case BeginVerifyStep(side, i) => Verify(side, i, step);
      case EndVerifyStep(side, i) => Verify(side, i, step);
    }

    /**
     Any steps, one after the other. If the provider's stored trade is then to be
     fulfilled, the exchange took place in its order.
     */
    method PerformAll(steps: seq<Step>)
      requires Valid() && Joint() == Start()
      modifies this, requester, requester.storage, provider, provider.storage
      ensures Valid()
      ensures Joint() == Run(flag, Start(), steps)
      ensures trade.id in provider.storage.trades && provider.storage.trades[trade.id].status == PFulfillService ==>
                HappenedInOrder(6, log)
    {
      var k := 0;
      while k < |steps|
        invariant k <= |steps|
        invariant Valid() && Joint() == Run(flag, Start(), steps[..k])
      {
        RunSnoc(flag, Start(), steps[..k], steps[k]);
        assert steps[..k] + [steps[k]] == steps[..k + 1];
        Perform(steps[k]);
        k := k + 1;
      }
      assert steps[..k] == steps;
      if provider.View(trade.id).status == Some(PFulfillService) {
        ServiceOnlyAfterExchange(flag, steps);
      }
    }
  }
}
