/**
 Progressive commitment, the documented design whose code is present but disabled. Funds
 are committed round by round: the requester commits in every round, the provider in
 every odd one, and neither answers a request for a round beyond the first one that it
 still misses itself.
 */
module Rounds {
  import opened Common

  datatype RoundType = T1 | T2

  datatype Commit = Commit(index: nat, epoch: nat, u: nat, cType: RoundType, iAddress: Address, rAddress: Address)

  /** The fixed part of a procedure, as one of the two parties runs it. */
  datatype Terms = Terms(isRequester: bool, queryId: nat, rounds: nat, selfAddress: Address)

  /** The counter party's wallet and that wallet's owner; both are zero until asked for. */
  datatype PeerWallet = PeerWallet(wallet: Address, owner: Address) {
    predicate Known() {
      wallet != 0 && owner != 0
    }
  }

  /** Commitments made and received, by round, and what is known of the counter party. */
  datatype Book = Book(sent: map<nat, Commit>, received: map<nat, Commit>, peer: PeerWallet)

  /** A round in which the counter party owes this side a commitment. */
  predicate Owed(t: Terms, n: nat) {
    (t.isRequester && n % 2 == 1) || !t.isRequester
  }

  function NextFrom(t: Terms, received: map<nat, Commit>, n: nat): (r: nat)
    requires n <= t.rounds
    ensures n <= r <= t.rounds
    ensures forall k :: n <= k < r && Owed(t, k) ==> k in received
    ensures r < t.rounds ==> Owed(t, r) && r !in received
    decreases t.rounds - n
  {
    if n == t.rounds then n
    else if Owed(t, n) && n !in received then n
    else NextFrom(t, received, n + 1)
  }

  /** The first round owed and not received, or the number of rounds. */
  function NextExpected(t: Terms, received: map<nat, Commit>): nat {
    NextFrom(t, received, 0)
  }

  predicate ValidRoundRequest(t: Terms, received: map<nat, Commit>, round: nat) {
    (t.isRequester || round % 2 == 1) && round <= NextExpected(t, received)
  }

  function CommitmentType(t: Terms, round: nat): RoundType {
    if t.isRequester && round >= t.rounds / 2 then T2 else T1
  }

  /** The counter party's address is whatever is stored at the time, known or not. */
  function NewCommit(t: Terms, peerOwner: Address, index: nat, cType: RoundType): Commit {
    Commit(index, 0, t.queryId, cType,
           if t.isRequester then t.selfAddress else peerOwner,
           if cType == T2 then peerOwner else 0)
  }

  /** The round's commitment, made now if need be; `drawn` is the pool's answer. */
  function CommitmentForRound(t: Terms, b: Book, round: nat, drawn: Option<nat>): (Book, Option<Commit>) {
    if round in b.sent then (b, Some(b.sent[round]))
    else match drawn
      case None => (b, None)
      case Some(index) =>
        var c := NewCommit(t, b.peer.owner, index, CommitmentType(t, round));
        (b.(sent := b.sent[round := c]), Some(c))
  }

  /** Anything a peer can make happen: a request for a round, or a reply of either kind. */
  datatype Action = Ask(round: nat, drawn: Option<nat>) | Reply(replyRound: nat, commit: Commit) | WalletReply(peer: PeerWallet)

  function Act(t: Terms, b: Book, a: Action): Book {
    match a
    case Ask(round, drawn) =>
      if ValidRoundRequest(t, b.received, round) then CommitmentForRound(t, b, round, drawn).0 else b
    case Reply(round, c) => b.(received := b.received[round := c])
    case WalletReply(peer) => b.(peer := peer)
  }

  function ActAll(t: Terms, b: Book, actions: seq<Action>): Book {
    if actions == [] then b else Act(t, ActAll(t, b, actions[..|actions| - 1]), actions[|actions| - 1])
  }

  const EMPTY_BOOK: Book := Book(map[], map[], PeerWallet(0, 0))

  // ----- bounded loss against any peer

  /** Every commitment sent was preceded by all that was owed for earlier rounds. */
  ghost predicate PaidInAdvance(t: Terms, b: Book) {
    forall r :: r in b.sent ==>
      && r <= t.rounds
      && (t.isRequester || r % 2 == 1)
      && forall k :: 0 <= k < r && Owed(t, k) ==> k in b.received
  }

  lemma ActKeepsPaid(t: Terms, b: Book, a: Action)
    requires PaidInAdvance(t, b)
    ensures PaidInAdvance(t, Act(t, b, a))
  {}

  lemma {:induction false} ActAllKeepsPaid(t: Terms, b: Book, actions: seq<Action>)
    requires PaidInAdvance(t, b)
    ensures PaidInAdvance(t, ActAll(t, b, actions))
  {
    if actions != [] {
      var front := actions[..|actions| - 1];
      ActAllKeepsPaid(t, b, front);
      ActKeepsPaid(t, ActAll(t, b, front), actions[|actions| - 1]);
    }
  }

  /** The odd numbers below n, of which there are n / 2. */
  function Odds(n: nat): set<nat> {
    set k | 0 <= k < n && k % 2 == 1
  }

  predicate Under(k: nat, n: nat) {
    k < n
  }

  function Below(n: nat): set<nat> {
    set k | 0 <= k < n && Under(k, n)
  }

  lemma {:induction false} OddsCount(n: nat)
    ensures |Odds(n)| == n / 2
  {
    if n == 0 {
      assert Odds(n) == {};
    } else {
      OddsCount(n - 1);
      assert Odds(n) == if n % 2 == 0 then Odds(n - 1) + {n - 1} else Odds(n - 1);
    }
  }

  lemma {:induction false} BelowCount(n: nat)
    ensures |Below(n)| == n
  {
    if n == 0 {
      assert Below(n) == {};
    } else {
      BelowCount(n - 1);
      assert Below(n) == Below(n - 1) + {n - 1};
    }
  }

  lemma {:induction false} LargestIn(s: set<nat>) returns (m: nat)
    requires s != {}
    ensures m in s && forall k :: k in s ==> k <= m
  {
    var x :| x in s;
    if s == {x} {
      m := x;
    } else {
      var y := LargestIn(s - {x});
      m := if x < y then y else x;
      forall k | k in s ensures k <= m {
        assert k == x || k in s - {x};
      }
    }
  }

  lemma RequesterBound(t: Terms, b: Book)
    requires t.isRequester && PaidInAdvance(t, b)
    ensures |b.sent| <= 2 * |b.received| + 2
  {
    if b.sent.Keys != {} {
      var m := LargestIn(b.sent.Keys);
      SubsetSize(b.sent.Keys, Below(m + 1));
      BelowCount(m + 1);
      SubsetSize(Odds(m), b.received.Keys);
      OddsCount(m);
    }
  }

  lemma ProviderBound(t: Terms, b: Book)
    requires !t.isRequester && PaidInAdvance(t, b)
    ensures |b.sent| <= (|b.received| + 1) / 2
  {
    if b.sent.Keys != {} {
      var m := LargestIn(b.sent.Keys);
      SubsetSize(b.sent.Keys, Odds(m + 1));
      OddsCount(m + 1);
      SubsetSize(Below(m), b.received.Keys);
      BelowCount(m);
    }
  }

  /**
   Whatever a peer asks and replies, in any order, a requester never has more than two
   commitments out beyond twice those received, and a provider never more than half of
   those received, rounded up.
   */
  lemma LossIsBounded(t: Terms, actions: seq<Action>)
    ensures var b := ActAll(t, EMPTY_BOOK, actions);
            |b.sent| <= if t.isRequester then 2 * |b.received| + 2 else (|b.received| + 1) / 2
    ensures forall r :: r in ActAll(t, EMPTY_BOOK, actions).sent ==>
              forall k :: 0 <= k < r && Owed(t, k) ==> k in ActAll(t, EMPTY_BOOK, actions).received
  {
    ActAllKeepsPaid(t, EMPTY_BOOK, actions);
    if t.isRequester {
      RequesterBound(t, ActAll(t, EMPTY_BOOK, actions));
    } else {
      ProviderBound(t, ActAll(t, EMPTY_BOOK, actions));
    }
  }

  /** A round once committed keeps its commitment, whatever is asked later. */
  lemma {:induction false} CommitmentIsKept(t: Terms, b: Book, actions: seq<Action>, round: nat)
    requires round in b.sent
    ensures var after := ActAll(t, b, actions); round in after.sent && after.sent[round] == b.sent[round]
  {
    if actions != [] {
      CommitmentIsKept(t, b, actions[..|actions| - 1], round);
    }
  }

  // ----- whose addresses the commitments carry

  /**
   As documented: everything can be invalidated by the requester alone; a provider sends
   only T1, a requester T1 in the first half of the rounds and T2, payable to the provider,
   in the rest. `peer` is the counter party's address.
   */
  ghost predicate AsAgreed(t: Terms, peer: Address, b: Book) {
    forall n :: n in b.sent ==>
      && b.sent[n].u == t.queryId && b.sent[n].epoch == 0
      && b.sent[n].iAddress == (if t.isRequester then t.selfAddress else peer)
      && (b.sent[n].cType == T2 <==> t.isRequester && n >= t.rounds / 2)
      && b.sent[n].rAddress == (if b.sent[n].cType == T2 then peer else 0)
  }

  /** The action makes a commitment that names the counter party. */
  predicate NamesPeer(t: Terms, b: Book, a: Action) {
    && a.Ask? && a.drawn.Some? && a.round !in b.sent
    && ValidRoundRequest(t, b.received, a.round)
    && (t.isRequester ==> CommitmentType(t, a.round) == T2)
  }

  lemma ActAsAgreedIff(t: Terms, peer: Address, b: Book, a: Action)
    ensures AsAgreed(t, peer, Act(t, b, a)) <==>
              AsAgreed(t, peer, b) && (NamesPeer(t, b, a) ==> b.peer.owner == peer)
  {
    var after := Act(t, b, a);
    assert forall n :: n in b.sent ==> n in after.sent && after.sent[n] == b.sent[n];
    if NamesPeer(t, b, a) {
      assert after.sent[a.round] == NewCommit(t, b.peer.owner, a.drawn.value, CommitmentType(t, a.round));
    }
  }

  /** The book as it is when the i-th action comes. */
  function Before(t: Terms, actions: seq<Action>, i: nat): Book
    requires i <= |actions|
  {
    ActAll(t, EMPTY_BOOK, actions[..i])
  }

  /** The i-th action makes a commitment that names the counter party. */
  predicate NamesAt(t: Terms, actions: seq<Action>, i: nat)
    requires i < |actions|
  {
    NamesPeer(t, Before(t, actions, i), actions[i])
  }

  predicate NamesRightly(t: Terms, peer: Address, actions: seq<Action>, i: nat)
    requires i < |actions|
  {
    NamesAt(t, actions, i) ==> Before(t, actions, i).peer.owner == peer
  }

  /**
   Whatever comes, the commitments are as agreed exactly when each that names the counter
   party is made with that party's address stored.
   */
  lemma {:induction false} CommitmentsAreAsAgreedIff(t: Terms, peer: Address, actions: seq<Action>)
    ensures AsAgreed(t, peer, ActAll(t, EMPTY_BOOK, actions)) <==>
            forall i :: 0 <= i < |actions| ==> NamesRightly(t, peer, actions, i)
  {
    if actions != [] {
      var n := |actions| - 1;
      var front := actions[..n];
      CommitmentsAreAsAgreedIff(t, peer, front);
      ActAsAgreedIff(t, peer, ActAll(t, EMPTY_BOOK, front), actions[n]);
      forall i | 0 <= i < n ensures NamesRightly(t, peer, front, i) <==> NamesRightly(t, peer, actions, i) {
        assert front[..i] == actions[..i];
      }
      assert NamesRightly(t, peer, actions, n) <==>
               (NamesPeer(t, ActAll(t, EMPTY_BOOK, front), actions[n]) ==> ActAll(t, EMPTY_BOOK, front).peer.owner == peer);
    }
  }

  /** The wallet was told by one of the first i actions. */
  predicate Told(actions: seq<Action>, i: nat)
    requires i <= |actions|
  {
    exists j :: 0 <= j < i && actions[j].WalletReply?
  }

  lemma {:induction false} TellingStores(t: Terms, actions: seq<Action>, i: nat)
    requires i <= |actions|
    ensures !Told(actions, i) ==> Before(t, actions, i).peer == EMPTY_BOOK.peer
    ensures Told(actions, i) ==>
              exists j :: 0 <= j < i && actions[j].WalletReply? && Before(t, actions, i).peer == actions[j].peer
    decreases i
  {
    if i > 0 {
      TellingStores(t, actions, i - 1);
      assert actions[..i][..i - 1] == actions[..i - 1];
      var b := Before(t, actions, i - 1);
      assert Before(t, actions, i) == Act(t, b, actions[i - 1]);
      if actions[i - 1].WalletReply? {
        assert Before(t, actions, i).peer == actions[i - 1].peer;
      } else {
        assert Before(t, actions, i).peer == b.peer;
      }
    }
  }

  /**
   When looking up a wallet's owner finds the counter party, the commitments are as agreed
   exactly when the wallet is told before any of them that name it. A request is answered
   without waiting for that.
   */
  lemma AsAgreedIffToldInTime(t: Terms, peer: Address, actions: seq<Action>)
    requires peer != 0
    requires forall i :: 0 <= i < |actions| && actions[i].WalletReply? ==> actions[i].peer.owner == peer
    ensures AsAgreed(t, peer, ActAll(t, EMPTY_BOOK, actions)) <==>
            forall i :: 0 <= i < |actions| && NamesAt(t, actions, i) ==> Told(actions, i)
  {
    CommitmentsAreAsAgreedIff(t, peer, actions);
    forall i | 0 <= i < |actions|
      ensures NamesRightly(t, peer, actions, i) <==> (NamesAt(t, actions, i) ==> Told(actions, i))
    {
      TellingStores(t, actions, i);
    }
  }

  /**
   When the lookup does not find it, as the code's placeholder hardly ever will, they are
   as agreed exactly when none of them names the counter party.
   */
  lemma AsAgreedIffNoneNames(t: Terms, peer: Address, actions: seq<Action>)
    requires peer != 0
    requires forall i :: 0 <= i < |actions| && actions[i].WalletReply? ==> actions[i].peer.owner != peer
    ensures AsAgreed(t, peer, ActAll(t, EMPTY_BOOK, actions)) <==>
            forall i :: 0 <= i < |actions| ==> !NamesAt(t, actions, i)
  {
    CommitmentsAreAsAgreedIff(t, peer, actions);
    forall i | 0 <= i < |actions| ensures NamesRightly(t, peer, actions, i) <==> !NamesAt(t, actions, i) {
      TellingStores(t, actions, i);
    }
  }

  /** Replies for the first n rounds. */
  function Replies(n: nat, c: Commit): seq<Action> {
    if n == 0 then [] else Replies(n - 1, c) + [Reply(n - 1, c)]
  }

  lemma {:induction false} RepliesReceived(t: Terms, n: nat, c: Commit)
    ensures ActAll(t, EMPTY_BOOK, Replies(n, c)).received.Keys == Below(n)
    ensures ActAll(t, EMPTY_BOOK, Replies(n, c)).sent == map[]
    ensures forall i :: 0 <= i < |Replies(n, c)| ==> Replies(n, c)[i].Reply?
  {
    if n > 0 {
      RepliesReceived(t, n - 1, c);
      assert Replies(n, c)[..|Replies(n, c)| - 1] == Replies(n - 1, c);
    }
  }

  /** A run in which the wallet is never told. */
  ghost predicate Untold(actions: seq<Action>) {
    forall i :: 0 <= i < |actions| ==> !actions[i].WalletReply?
  }

  lemma CommitsUntold(t: Terms, peer: Address, round: nat, c: Commit) returns (actions: seq<Action>)
    requires peer != 0 && round <= t.rounds && (t.isRequester || round % 2 == 1)
    requires t.isRequester ==> CommitmentType(t, round) == T2
    ensures Untold(actions) && !AsAgreed(t, peer, ActAll(t, EMPTY_BOOK, actions))
  {
    var replies := Replies(round, c);
    actions := replies + [Ask(round, Some(1))];
    RepliesReceived(t, round, c);
    var b := ActAll(t, EMPTY_BOOK, replies);
    assert actions[..|actions| - 1] == replies;
    assert forall k :: 0 <= k < round ==> Under(k, round) && k in b.received;
    TellingStores(t, actions, |replies|);
    ActAsAgreedIff(t, peer, b, Ask(round, Some(1)));
  }

  /**
   A peer that never tells its wallet, and answers the request for it with commitments,
   can have a requester commit to no one, for any number of rounds; and a provider, unless
   there are no rounds at all.
   */
  lemma MisaddressedIff(t: Terms, peer: Address)
    requires peer != 0
    ensures (exists actions :: Untold(actions) && !AsAgreed(t, peer, ActAll(t, EMPTY_BOOK, actions)))
            <==> t.isRequester || t.rounds > 0
  {
    var c := NewCommit(t, peer, 0, T1);
    if t.isRequester {
      var actions := CommitsUntold(t, peer, t.rounds / 2, c);
    } else if t.rounds > 0 {
      var actions := CommitsUntold(t, peer, 1, c);
    } else {
      forall actions ensures AsAgreed(t, peer, ActAll(t, EMPTY_BOOK, actions)) {
        CommitmentsAreAsAgreedIff(t, peer, actions);
      }
    }
  }

  /**
   The check on a request has no other upper bound: one commitment beyond the agreed
   rounds is given exactly when everything owed has been received (and the round
   number is one this side answers).
   */
  lemma ExtraRoundIff(t: Terms, received: map<nat, Commit>)
    ensures ValidRoundRequest(t, received, t.rounds) <==>
              && (t.isRequester || t.rounds % 2 == 1)
              && forall k :: 0 <= k < t.rounds && Owed(t, k) ==> k in received
  {}

  // ----- the procedure as it runs

  datatype Request = ForWallet | ForRound(n: nat)

  /** What a party asks its counter party for next; nothing once nothing is missing. */
  function Wanted(t: Terms, b: Book): Option<Request> {
    if !b.peer.Known() then Some(ForWallet)
    else
      var n := NextExpected(t, b.received);
      if n == t.rounds then None else Some(ForRound(n))
  }

  /** A response, with the owner that was looked up for a wallet. */
  datatype Response =
    | CommitFund(queryId: nat, round: nat, commitment: Commit)
    | WalletAddress(queryId: nat, wallet: Address, ownerFound: Address)
    | Failed
    | Unrelated

  /** A response is taken by its own kind, whatever kind was asked for. */
  function TakeResponse(t: Terms, b: Book, response: Response): Book {
    match response
    case CommitFund(q, round, c) => if q == t.queryId then Act(t, b, Reply(round, c)) else b
    case WalletAddress(q, w, owner) => if q == t.queryId then Act(t, b, WalletReply(PeerWallet(w, owner))) else b
    case _ => b
  }

  class Procedure {
    const terms: Terms
    var commitmentsSent: map<nat, Commit>
    var commitmentsReceived: map<nat, Commit>
    var peerWallet: PeerWallet
    var pendingRequests: map<nat, Request>

    function Contents(): Book
      reads this
    {
      Book(commitmentsSent, commitmentsReceived, peerWallet)
    }

    constructor (terms: Terms)
      ensures this.terms == terms && Contents() == EMPTY_BOOK && pendingRequests == map[]
    {
      this.terms := terms;
      commitmentsSent, commitmentsReceived, pendingRequests := map[], map[], map[];
      peerWallet := PeerWallet(0, 0);
    }

    method NextExpectedRound() returns (r: nat)
      ensures r == NextExpected(terms, commitmentsReceived)
    {
      for n := 0 to terms.rounds
        invariant NextFrom(terms, commitmentsReceived, n) == NextExpected(terms, commitmentsReceived)
      {
        if ((terms.isRequester && n % 2 == 1) || !terms.isRequester) && n !in commitmentsReceived {
          return n;
        }
      }
      r := terms.rounds;
    }

    method IsValidRoundRequest(round: nat) returns (valid: bool)
      ensures valid == ValidRoundRequest(terms, commitmentsReceived, round)
    {
      if !terms.isRequester && round % 2 == 0 {
        return false;
      }
      var next := NextExpectedRound();
      if round > next {
        return false;
      }
      valid := true;
    }

    method FindCommitmentForRound(round: nat, cType: RoundType, drawn: Option<nat>) returns (c: Option<Commit>)
      requires cType == CommitmentType(terms, round)
      modifies this`commitmentsSent
      ensures (Contents(), c) == CommitmentForRound(terms, old(Contents()), round, drawn)
    {
      if round in commitmentsSent {
        return Some(commitmentsSent[round]);
      }
      if drawn.None? {
        return None;
      }
      c := Some(NewCommit(terms, peerWallet.owner, drawn.value, cType));
      commitmentsSent := commitmentsSent[round := c.value];
    }

    /** A request for a round: answered exactly for this query, a valid round and an index left. */
    method ReceivedRequest(queryId: nat, round: nat, drawn: Option<nat>) returns (c: Option<Commit>)
      modifies this`commitmentsSent
      ensures Contents() == if queryId == terms.queryId then Act(terms, old(Contents()), Ask(round, drawn)) else old(Contents())
      ensures c.Some? <==>
                && queryId == terms.queryId && ValidRoundRequest(terms, commitmentsReceived, round)
                && (round in old(commitmentsSent) || drawn.Some?)
      ensures c.Some? ==> round in commitmentsSent && c.value == commitmentsSent[round]
    {
      c := None;
      if queryId == terms.queryId {
        var valid := IsValidRoundRequest(round);
        if valid {
          c := FindCommitmentForRound(round, CommitmentType(terms, round), drawn);
        }
      }
    }

    /** A response, or the failure of one, ends its request; any other is ignored. */
    method ReceivedResponse(id: nat, response: Response)
      modifies this`commitmentsReceived, this`peerWallet, this`pendingRequests
      ensures pendingRequests == old(pendingRequests) - {id}
      ensures Contents() == if id in old(pendingRequests) then TakeResponse(terms, old(Contents()), response) else old(Contents())
    {
      if id in pendingRequests {
        pendingRequests := pendingRequests - {id};
        match response {
          case CommitFund(q, round, c) =>
            if q == terms.queryId {
              commitmentsReceived := commitmentsReceived[round := c];
            }
          case WalletAddress(q, w, owner) =>
            if q == terms.queryId {
              peerWallet := PeerWallet(w, owner);
            }
          case _ =>
        }
      }
    }

    /** A tick: asks for what is wanted next, one request at a time; `id` names the request. */
    method Handle(id: nat) returns (ask: Option<Request>)
      modifies this`pendingRequests
      ensures ask == if old(pendingRequests) != map[] then None else Wanted(terms, Contents())
      ensures pendingRequests == if ask.Some? then map[id := ask.value] else old(pendingRequests)
    {
      ask := None;
      if pendingRequests == map[] {
        if peerWallet.Known() {
          var round := NextExpectedRound();
          if round != terms.rounds {
            ask := Some(ForRound(round));
          }
        } else {
          ask := Some(ForWallet);
        }
        if ask.Some? {
          pendingRequests := pendingRequests[id := ask.value];
        }
      }
    }
  }
}
