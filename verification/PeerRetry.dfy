/**
 Loading a wallet's commit history from the peers that offer it: whom to ask next, and
 the loop that asks until the history has arrived or no peer is left.
 */
module PeerRetry {
  import opened Common

  datatype Answer = AskPeer(peer: PeerId) | NoPeer

  /** The peers still to be asked and how often the first of them has been. */
  datatype Queue = Queue(peers: seq<PeerId>, count: nat)

  function FirstOf(peers: seq<PeerId>): Answer {
    if peers == [] then NoPeer else AskPeer(peers[0])
  }

  /** One query; None is the panic of removing from an empty list. */
  function Query(q: Queue): Option<(Queue, Answer)> {
    if q.count <= 3 then Some((Queue(q.peers, q.count + 1), FirstOf(q.peers)))
    else if q.peers == [] then None
    else Some((Queue(q.peers[1..], 1), FirstOf(q.peers[1..])))
  }

  /** The answer of the t-th query after as many before it, None once one has panicked. */
  function QueryTimes(q: Queue, t: nat): Option<(Queue, Answer)>
    requires t > 0
  {
    if t == 1 then Query(q)
    else match QueryTimes(q, t - 1)
      case None => None
      case Some((before, _)) => Query(before)
  }

  /** The answer the schedule calls for: each peer in order, four times. */
  function Scheduled(peers: seq<PeerId>, t: nat): Answer
    requires t > 0
  {
    if (t - 1) / 4 < |peers| then AskPeer(peers[(t - 1) / 4]) else NoPeer
  }

  /** Query b + 1 of the four that peer a gets. */
  lemma {:induction false} Slot(peers: seq<PeerId>, a: nat, b: nat)
    requires a <= |peers| && b < 4
    ensures QueryTimes(Queue(peers, 0), 4 * a + b + 1) == Some((Queue(peers[a..], b + 1), FirstOf(peers[a..])))
    decreases a, b
  {
    if b > 0 {
      Slot(peers, a, b - 1);
    } else if a > 0 {
      Slot(peers, a - 1, 3);
      assert peers[a - 1..][1..] == peers[a..];
    } else {
      assert peers[0..] == peers;
    }
  }

  lemma {:induction false} PanicsAfter(peers: seq<PeerId>, t: nat)
    requires t > 4 * |peers| + 4
    ensures QueryTimes(Queue(peers, 0), t).None?
  {
    if t == 4 * |peers| + 5 {
      Slot(peers, |peers|, 3);
    } else {
      PanicsAfter(peers, t - 1);
    }
  }

  /**
   From n peers the t-th query asks peer (t - 1) / 4, hence each peer in order exactly
   four times, and call 4n + 1 is the first to find none. Three further calls find none,
   and call 4n + 5 is the first to panic.
   */
  lemma ScheduleHolds(peers: seq<PeerId>, t: nat)
    requires t > 0
    ensures QueryTimes(Queue(peers, 0), t).Some? <==> t <= 4 * |peers| + 4
    ensures t <= 4 * |peers| + 4 ==> QueryTimes(Queue(peers, 0), t).value.1 == Scheduled(peers, t)
  {
    if t <= 4 * |peers| + 4 {
      var a, b := (t - 1) / 4, (t - 1) % 4;
      assert t == 4 * a + b + 1;
      Slot(peers, a, b);
      assert a < |peers| ==> peers[a..][0] == peers[a];
    } else {
      PanicsAfter(peers, t);
    }
  }

  /** The queue after k queries. */
  function QueueAfter(peers: seq<PeerId>, k: nat): Option<Queue> {
    if k == 0 then Some(Queue(peers, 0))
    else match QueryTimes(Queue(peers, 0), k)
      case None => None
      case Some((q, _)) => Some(q)
  }

  /** The schedule as a list. */
  function Schedule(peers: seq<PeerId>): (s: seq<PeerId>)
    ensures |s| == 4 * |peers|
  {
    seq(4 * |peers|, i requires 0 <= i < 4 * |peers| => peers[i / 4])
  }

  lemma NextAnswer(peers: seq<PeerId>, k: nat, q: Queue)
    requires k <= 4 * |peers| && QueueAfter(peers, k) == Some(q)
    ensures Query(q) == QueryTimes(Queue(peers, 0), k + 1)
    ensures Query(q).Some? && Query(q).value.1 == Scheduled(peers, k + 1)
  {
    ScheduleHolds(peers, k + 1);
  }

  /** The list's next entry is the next scheduled answer. */
  lemma NextScheduled(peers: seq<PeerId>, k: nat)
    requires k <= 4 * |peers|
    ensures k == 4 * |peers| ==> Scheduled(peers, k + 1) == NoPeer && Schedule(peers)[..k] == Schedule(peers)
    ensures k < 4 * |peers| ==>
              && Scheduled(peers, k + 1) == AskPeer(peers[k / 4])
              && Schedule(peers)[..k + 1] == Schedule(peers)[..k] + [peers[k / 4]]
  {}

  /** After k queries that found a peer: whom the next one asks, and that it cannot panic. */
  lemma {:induction false} NextQuery(peers: seq<PeerId>, asked: seq<PeerId>, q: Queue)
    requires |asked| <= 4 * |peers| && asked == Schedule(peers)[..|asked|]
    requires QueueAfter(peers, |asked|) == Some(q)
    ensures Query(q).Some? && Query(q) == QueryTimes(Queue(peers, 0), |asked| + 1)
    ensures Query(q).value.1 == NoPeer ==> asked == Schedule(peers)
    ensures Query(q).value.1 != NoPeer ==>
              |asked| < 4 * |peers| && asked + [Query(q).value.1.peer] == Schedule(peers)[..|asked| + 1]
  {
    NextAnswer(peers, |asked|, q);
    NextScheduled(peers, |asked|);
  }

  /** The lexicographic measure on peers left and queries left of the first. */
  lemma QueriesRunOut(q: Queue)
    requires Query(q).Some? && q.count <= 4
    ensures var next := Query(q).value.0;
            next.count <= 4 && (|next.peers| < |q.peers| || (next.peers == q.peers && 4 - next.count < 4 - q.count))
  {}

  class LoadingState {
    var peers: seq<PeerId>
    var requestCount: nat

    function Pending(): Queue
      reads this
    {
      Queue(peers, requestCount)
    }

    constructor (peers: seq<PeerId>)
      ensures Pending() == Queue(peers, 0)
    {
      this.peers := peers;
      requestCount := 0;
    }

    method QueryFrom() returns (r: Answer)
      requires requestCount <= 3 || peers != []
      modifies this
      ensures Query(old(Pending())) == Some((Pending(), r))
    {
      if requestCount <= 3 {
        requestCount := requestCount + 1;
      } else {
        requestCount := 1;
        peers := peers[1..];
      }
      r := FirstOf(peers);
    }
  }

  datatype Response = Ack | Bad | Failed

  /** What wakes the loop: a batch of commits, or the interval timer. */
  datatype Event = Update(lastBatch: bool) | Tick(timedOut: bool, response: Response)

  datatype Progress = NotStarted | InProgress | Ended

  datatype Result = Loaded | NoPeersLeft | StillWaiting

  /** The loop after some events: going on with so many peers asked, or returned. */
  datatype Loop = Going(progress: Progress, asked: nat) | Returned(result: Result, asked: nat)

  function LoopStep(peers: seq<PeerId>, l: Loop, e: Event): Loop {
    match l
    case Returned(_, _) => l
    case Going(progress, k) =>
      match e
      case Update(lastBatch) => if lastBatch then Going(Ended, k) else l
      case Tick(timedOut, response) =>
        if progress == Ended then Returned(Loaded, k)
        else if progress != NotStarted && !timedOut then l
        else if k >= 4 * |peers| then Returned(NoPeersLeft, k)
        else Going(if response == Ack then InProgress else progress, k + 1)
  }

  function LoopAfter(peers: seq<PeerId>, events: seq<Event>): Loop {
    if events == [] then Going(NotStarted, 0)
    else LoopStep(peers, LoopAfter(peers, events[..|events| - 1]), events[|events| - 1])
  }

  /** Some tick's request was acknowledged. */
  ghost predicate Acknowledged(events: seq<Event>) {
    exists i :: 0 <= i < |events| && events[i].Tick? && events[i].response == Ack
  }

  lemma {:induction false} ProgressMeans(peers: seq<PeerId>, events: seq<Event>)
    requires LoopAfter(peers, events).Going?
    ensures var progress := LoopAfter(peers, events).progress;
            && (progress == Ended <==> Update(true) in events)
            && (progress == NotStarted <==> Update(true) !in events && !Acknowledged(events))
  {
    if events != [] {
      var n := |events| - 1;
      var front := events[..n];
      ProgressMeans(peers, front);
      assert events == front + [events[n]];
      if i :| 0 <= i < n && front[i].Tick? && front[i].response == Ack {
        assert events[i] == front[i];
      }
      if i :| 0 <= i < |events| && events[i].Tick? && events[i].response == Ack {
        assert i < n ==> front[i] == events[i];
      }
    }
  }

  /**
   A tick ends the loop as soon as the last batch has arrived. Until then it asks the next
   scheduled peer if no request has been acknowledged yet or the last one has timed out,
   and gives up if the schedule is used up; other ticks and other batches change nothing.
   */
  lemma {:induction false} TickDecides(peers: seq<PeerId>, events: seq<Event>, timedOut: bool, response: Response)
    requires LoopAfter(peers, events).Going?
    ensures var k := LoopAfter(peers, events).asked;
            match LoopAfter(peers, events + [Tick(timedOut, response)])
            case Returned(result, m) =>
              && m == k
              && (Update(true) in events || ((timedOut || !Acknowledged(events)) && k >= 4 * |peers|))
              && result == (if Update(true) in events then Loaded else NoPeersLeft)
            case Going(_, m) =>
              && Update(true) !in events
              && m == (if timedOut || !Acknowledged(events) then k + 1 else k) <= 4 * |peers|
  {
    var tick := Tick(timedOut, response);
    assert (events + [tick])[..|events|] == events;
    ProgressMeans(peers, events);
    AskedWithin(peers, events);
  }

  lemma {:induction false} AskedWithin(peers: seq<PeerId>, events: seq<Event>)
    ensures LoopAfter(peers, events).asked <= 4 * |peers|
  {
    if events != [] {
      AskedWithin(peers, events[..|events| - 1]);
    }
  }

  /** A batch never ends the loop or asks anybody. */
  lemma {:induction false} BatchDecides(peers: seq<PeerId>, events: seq<Event>, lastBatch: bool)
    requires LoopAfter(peers, events).Going?
    ensures LoopAfter(peers, events + [Update(lastBatch)]).Going?
    ensures LoopAfter(peers, events + [Update(lastBatch)]).asked == LoopAfter(peers, events).asked
  {
    assert (events + [Update(lastBatch)])[..|events|] == events;
  }

  lemma {:induction false} ReturnedForGood(peers: seq<PeerId>, events: seq<Event>, i: nat)
    requires i <= |events| && LoopAfter(peers, events[..i]).Returned?
    ensures LoopAfter(peers, events) == LoopAfter(peers, events[..i])
    decreases |events|
  {
    if i < |events| {
      var front := events[..|events| - 1];
      assert front[..i] == events[..i];
      ReturnedForGood(peers, front, i);
    } else {
      assert events[..i] == events;
    }
  }

  /**
   The loading loop over any events. It asks peers by the schedule, as often and as long as
   the loop's specification says, and its queries never panic.
   */
  method LoadCommitHistory(peers: seq<PeerId>, events: seq<Event>) returns (result: Result, asked: seq<PeerId>)
    ensures asked <= Schedule(peers)
    ensures result == NoPeersLeft ==> asked == Schedule(peers)
    ensures result == Loaded ==> Update(true) in events
    ensures |asked| == LoopAfter(peers, events).asked
    ensures match LoopAfter(peers, events)
            case Returned(r, _) => result == r
            case Going(_, _) => result == StillWaiting
  {
    var loading := new LoadingState(peers);
    var progress := NotStarted;
    asked := [];
    var i := 0;
    while i < |events|
      invariant i <= |events|
      invariant |asked| <= 4 * |peers| && asked == Schedule(peers)[..|asked|]
      invariant QueueAfter(peers, |asked|) == Some(loading.Pending())
      invariant progress == Ended ==> Update(true) in events
      invariant LoopAfter(peers, events[..i]) == Going(progress, |asked|)
    {
      assert events[..i + 1][..i] == events[..i];
      if LoopAfter(peers, events[..i + 1]).Returned? {
        ReturnedForGood(peers, events, i + 1);
      }
      match events[i] {
        case Update(lastBatch) =>
          if lastBatch {
            progress := Ended;
          }
        case Tick(timedOut, response) =>
          if progress == Ended {
            return Loaded, asked;
          }
          if progress == NotStarted || timedOut {
            NextQuery(peers, asked, loading.Pending());
            var answer := loading.QueryFrom();
            match answer {
              case NoPeer =>
                return NoPeersLeft, asked;
              case AskPeer(peer) =>
                asked := asked + [peer];
                if response == Ack {
                  progress := InProgress;
                }
            }
          }
      }
      i := i + 1;
    }
    assert events[..i] == events;
    result := StillWaiting;
  }
}
