/**
 Two honest peers in a progressive commitment, each with its own pool of indexes. Every
 exchange is a request for what the asker wants next, and it may be lost on the way there
 or back: a response lost on its way back leaves the answerer committed all the same.
 */
module HonestPair {
  import opened Common
  import opened Rounds
  import opened IndexPool

  /** A party's terms, its wallet, and the owner that the other finds for that wallet. */
  datatype Party = Party(terms: Terms, wallet: Address, ownerFound: Address)

  datatype Peer = Peer(pool: Pool, received: map<nat, Commit>, known: PeerWallet)

  datatype Pair = Pair(requester: Peer, provider: Peer)

  datatype Fate = RequestLost | ResponseLost | Delivered

  datatype Exchange = Exchange(byRequester: bool, fate: Fate)

  /** The procedure's commitments are those its pool has ongoing for the query. */
  function Sent(t: Terms, n: Peer): map<nat, Commit> {
    if t.queryId in n.pool.ongoing then n.pool.ongoing[t.queryId] else map[]
  }

  function BookOf(t: Terms, n: Peer): Book {
    Book(Sent(t, n), n.received, n.known)
  }

  function Wants(x: Party, n: Peer): Option<Request> {
    Wanted(x.terms, BookOf(x.terms, n))
  }

  /** The asked side makes the round's commitment, if the round is valid and an index is left. */
  function Committing(t: Terms, n: Peer, round: nat): Peer {
    if ValidRoundRequest(t, n.received, round)
    then n.(pool := CommitRound(n.pool, t.queryId, round, NewCommit(t, n.known.owner, 0, CommitmentType(t, round))))
    else n
  }

  /** The response to a request for a round, once the asked side has done what it can. */
  function ReplyTo(t: Terms, n: Peer, round: nat): Option<Commit> {
    if ValidRoundRequest(t, n.received, round) && round in Sent(t, n) then Some(Sent(t, n)[round]) else None
  }

  /** An exchange: the asker and the asked side afterwards. */
  function Serve(x: Party, a: Peer, y: Party, b: Peer, fate: Fate): (Peer, Peer) {
    match Wants(x, a)
    case None => (a, b)
    case Some(_) =>
      if fate == RequestLost then (a, b)
      else match Wants(x, a).value
        case ForWallet => (if fate == Delivered then a.(known := PeerWallet(y.wallet, y.ownerFound)) else a, b)
        case ForRound(n) =>
          var b' := Committing(y.terms, b, n);
          (if fate == Delivered then Receiving(a, n, ReplyTo(y.terms, b', n)) else a, b')
  }

  function Receiving(a: Peer, round: nat, reply: Option<Commit>): Peer {
    if reply.Some? then a.(received := a.received[round := reply.value]) else a
  }

  function Meet(r: Party, p: Party, s: Pair, e: Exchange): Pair {
    if e.byRequester then
      var (a, b) := Serve(r, s.requester, p, s.provider, e.fate);
      Pair(a, b)
    else
      var (a, b) := Serve(p, s.provider, r, s.requester, e.fate);
      Pair(b, a)
  }

  function MeetAll(r: Party, p: Party, s: Pair, es: seq<Exchange>): Pair
    decreases |es|
  {
    if es == [] then s else MeetAll(r, p, Meet(r, p, s, es[0]), es[1..])
  }

  /** One query, a requester and a provider, and wallets that can be told from the unknown one. */
  ghost predicate Matching(r: Party, p: Party) {
    && r.terms.isRequester && !p.terms.isRequester
    && r.terms.rounds == p.terms.rounds && r.terms.queryId == p.terms.queryId
    && PeerWallet(r.wallet, r.ownerFound).Known() && PeerWallet(p.wallet, p.ownerFound).Known()
  }

  /** The top of the pool is the index that the next new commitment draws. */
  function Top(p: Pool): Option<nat> {
    if p.unused == [] then None else Some(p.unused[|p.unused| - 1])
  }

  /** Seen from its book, what a peer does on a request is what any procedure does. */
  lemma CommittingIsAsking(t: Terms, n: Peer, round: nat)
    requires t.queryId in n.pool.ongoing
    ensures BookOf(t, Committing(t, n, round)) == Act(t, BookOf(t, n), Ask(round, Top(n.pool)))
  {}

  /** An asker takes what it is given as any procedure takes the response to its request. */
  lemma ReceivingIsTaking(x: Party, a: Peer, y: Party, b: Peer)
    requires x.terms.queryId == y.terms.queryId && Wants(x, a).Some?
    ensures var (a', b') := Serve(x, a, y, b, Delivered);
            BookOf(x.terms, a') == TakeResponse(x.terms, BookOf(x.terms, a),
              match Wants(x, a).value
              case ForWallet => WalletAddress(y.terms.queryId, y.wallet, y.ownerFound)
              case ForRound(n) =>
                match ReplyTo(y.terms, b', n)
                case None => Failed
                case Some(c) => CommitFund(y.terms.queryId, n, c))
  {}

  /** A response of another query, or a failure, leaves a book as it is. */
  lemma OtherResponsesIgnored(t: Terms, b: Book, response: Response)
    requires match response
             case CommitFund(q, _, _) => q != t.queryId
             case WalletAddress(q, _, _) => q != t.queryId
             case _ => true
    ensures TakeResponse(t, b, response) == b
  {}

  /**
   A lost request changes nothing. A lost response leaves the asker with nothing, and the
   asked side exactly as if it had arrived: committed, and an index poorer.
   */
  lemma LossLeavesCommitment(x: Party, a: Peer, y: Party, b: Peer)
    ensures Serve(x, a, y, b, RequestLost) == (a, b)
    ensures Serve(x, a, y, b, ResponseLost) == (a, Serve(x, a, y, b, Delivered).1)
    ensures var b' := Serve(x, a, y, b, ResponseLost).1;
            y.terms.queryId in b.pool.ongoing && Wants(x, a).Some? && Wants(x, a).value.ForRound?
            && ValidRoundRequest(y.terms, b.received, Wants(x, a).value.n) && b.pool.unused != []
            && Wants(x, a).value.n !in Sent(y.terms, b) ==>
              && Wants(x, a).value.n in Sent(y.terms, b')
              && b.pool.unused == b'.pool.unused + [Sent(y.terms, b')[Wants(x, a).value.n].index]
  {}

  // ----- what every exchange keeps

  /** Received rounds are exactly the owed ones up to the next expected. */
  ghost predicate InStep(t: Terms, received: map<nat, Commit>) {
    received.Keys == set n | 0 <= n < NextExpected(t, received) && Owed(t, n)
  }

  /** The rounds in which this party is to commit. */
  function DueRounds(t: Terms): set<nat> {
    if t.isRequester then Below(t.rounds) else Odds(t.rounds)
  }

  function DueCount(t: Terms): nat {
    if t.isRequester then t.rounds else t.rounds / 2
  }

  lemma DueSize(t: Terms)
    ensures |DueRounds(t)| == DueCount(t)
  {
    if t.isRequester {
      BelowCount(t.rounds);
    } else {
      OddsCount(t.rounds);
    }
  }

  ghost predicate PeerInv(t: Terms, n: Peer) {
    && t.queryId in n.pool.ongoing
    && InStep(t, n.received)
    && Sent(t, n).Keys <= DueRounds(t)
  }

  /** Whatever one has received the other has sent. */
  ghost predicate SentAsReceived(a: map<nat, Commit>, b: map<nat, Commit>) {
    forall n :: n in a ==> n in b && a[n] == b[n]
  }

  ghost predicate PairInv(r: Party, p: Party, s: Pair) {
    && PeerInv(r.terms, s.requester) && PeerInv(p.terms, s.provider)
    && SentAsReceived(s.requester.received, Sent(p.terms, s.provider))
    && SentAsReceived(s.provider.received, Sent(r.terms, s.requester))
  }

  /** Indexes left and commitments made: together they never change. */
  function Stock(t: Terms, n: Peer): nat {
    |n.pool.unused| + |Sent(t, n)|
  }

  lemma CommittingKeeps(t: Terms, n: Peer, round: nat)
    requires PeerInv(t, n) && (round in DueRounds(t) || !ValidRoundRequest(t, n.received, round))
    ensures var m := Committing(t, n, round);
            && PeerInv(t, m) && Stock(t, m) == Stock(t, n)
            && SentAsReceived(Sent(t, n), Sent(t, m))
            && m.received == n.received && m.known == n.known
            && (ValidRoundRequest(t, n.received, round) && (round in Sent(t, n) || n.pool.unused != []) ==> round in Sent(t, m))
  {
    CommittingIsAsking(t, n, round);
  }

  lemma ReceiveKeepsInStep(t: Terms, received: map<nat, Commit>, n: nat, c: Commit)
    requires InStep(t, received) && n == NextExpected(t, received) && n < t.rounds
    ensures InStep(t, received[n := c]) && |received[n := c]| == |received| + 1
  {
    var after := received[n := c];
    var m := NextExpected(t, after);
    assert n !in received;
    assert forall k :: n < k < m ==> !Owed(t, k);
    assert m > n;
    assert after.Keys == set k | 0 <= k < m && Owed(t, k);
  }

  /** The round that a party asks for is one in which the other is to commit. */
  lemma AskedIsDue(x: Party, a: Peer, y: Party)
    requires x.terms.isRequester != y.terms.isRequester && x.terms.rounds == y.terms.rounds
    requires Wants(x, a).Some? && Wants(x, a).value.ForRound?
    ensures Wants(x, a).value.n in DueRounds(y.terms)
  {
    assert Under(Wants(x, a).value.n, x.terms.rounds);
  }

  lemma ReceivingKeeps(x: Party, a: Peer, y: Party, b: Peer, n: nat)
    requires PeerInv(x.terms, a) && SentAsReceived(a.received, Sent(y.terms, b))
    requires n == NextExpected(x.terms, a.received) && n < x.terms.rounds
    ensures var a' := Receiving(a, n, ReplyTo(y.terms, b, n));
            && PeerInv(x.terms, a') && a'.pool == a.pool && a'.known == a.known
            && SentAsReceived(a'.received, Sent(y.terms, b))
            && |a'.received| == |a.received| + if ReplyTo(y.terms, b, n).Some? then 1 else 0
  {
    if ReplyTo(y.terms, b, n).Some? {
      ReceiveKeepsInStep(x.terms, a.received, n, ReplyTo(y.terms, b, n).value);
    }
  }

  /** What one exchange keeps of the asker a and of the asked side b. */
  ghost predicate Kept(x: Party, a: Peer, a': Peer, y: Party, b: Peer, b': Peer) {
    && PeerInv(x.terms, a') && PeerInv(y.terms, b')
    && SentAsReceived(a'.received, Sent(y.terms, b')) && SentAsReceived(b'.received, Sent(x.terms, a'))
    && Stock(x.terms, a') == Stock(x.terms, a) && Stock(y.terms, b') == Stock(y.terms, b)
    && |a.received| <= |a'.received| <= |a.received| + 1 && b'.received == b.received && b'.known == b.known
  }

  lemma RoundKeeps(x: Party, a: Peer, y: Party, b: Peer, n: nat)
    requires PeerInv(x.terms, a) && PeerInv(y.terms, b)
    requires SentAsReceived(a.received, Sent(y.terms, b)) && SentAsReceived(b.received, Sent(x.terms, a))
    requires n == NextExpected(x.terms, a.received) && n < x.terms.rounds && n in DueRounds(y.terms)
    ensures var b' := Committing(y.terms, b, n);
            Kept(x, a, a, y, b, b') && Kept(x, a, Receiving(a, n, ReplyTo(y.terms, b', n)), y, b, b')
  {
    CommittingKeeps(y.terms, b, n);
    ReceivingKeeps(x, a, y, Committing(y.terms, b, n), n);
  }

  /** Nothing changes, or only what the asker knows of the other. */
  lemma TellingKeeps(x: Party, a: Peer, y: Party, b: Peer, known: PeerWallet)
    requires PeerInv(x.terms, a) && PeerInv(y.terms, b)
    requires SentAsReceived(a.received, Sent(y.terms, b)) && SentAsReceived(b.received, Sent(x.terms, a))
    ensures Kept(x, a, a, y, b, b) && Kept(x, a, a.(known := known), y, b, b)
  {}

  lemma ServeKeeps(x: Party, a: Peer, y: Party, b: Peer, fate: Fate)
    requires x.terms.isRequester != y.terms.isRequester && x.terms.rounds == y.terms.rounds
    requires PeerInv(x.terms, a) && PeerInv(y.terms, b)
    requires SentAsReceived(a.received, Sent(y.terms, b)) && SentAsReceived(b.received, Sent(x.terms, a))
    ensures Kept(x, a, Serve(x, a, y, b, fate).0, y, b, Serve(x, a, y, b, fate).1)
  {
    TellingKeeps(x, a, y, b, PeerWallet(y.wallet, y.ownerFound));
    match Wants(x, a)
    case Some(ForRound(n)) =>
      AskedIsDue(x, a, y);
      RoundKeeps(x, a, y, b, n);
      if fate != RequestLost {
        var b' := Committing(y.terms, b, n);
        assert Serve(x, a, y, b, fate) == (if fate == Delivered then Receiving(a, n, ReplyTo(y.terms, b', n)) else a, b');
      }
    case _ =>
  }

  lemma MeetKeepsInv(r: Party, p: Party, s: Pair, e: Exchange)
    requires Matching(r, p) && PairInv(r, p, s)
    ensures var s' := Meet(r, p, s, e);
            && PairInv(r, p, s')
            && Stock(r.terms, s'.requester) == Stock(r.terms, s.requester)
            && Stock(p.terms, s'.provider) == Stock(p.terms, s.provider)
            && Gathered(s) <= Gathered(s') <= Gathered(s) + 1
  {
    if e.byRequester {
      ServeKeeps(r, s.requester, p, s.provider, e.fate);
    } else {
      ServeKeeps(p, s.provider, r, s.requester, e.fate);
    }
  }

  // ----- finishing

  /** Commitments received by the two together. */
  function Gathered(s: Pair): nat {
    |s.requester.received| + |s.provider.received|
  }

  /** Exchanges that brought the asker a commitment. */
  function Answered(r: Party, p: Party, s: Pair, es: seq<Exchange>): nat
    decreases |es|
  {
    if es == [] then 0
    else
      var s' := Meet(r, p, s, es[0]);
      (if Gathered(s') > Gathered(s) then 1 else 0) + Answered(r, p, s', es[1..])
  }

  ghost predicate Complete(r: Party, p: Party, s: Pair) {
    NextExpected(r.terms, s.requester.received) == r.terms.rounds &&
    NextExpected(p.terms, s.provider.received) == p.terms.rounds
  }

  ghost predicate CanFinish(r: Party, p: Party, s: Pair) {
    exists es :: Complete(r, p, MeetAll(r, p, s, es))
  }

  /** Each side's indexes suffice for the commitments that it still has to make. */
  predicate Enough(r: Party, p: Party, s: Pair) {
    Stock(r.terms, s.requester) >= r.terms.rounds && Stock(p.terms, s.provider) >= p.terms.rounds / 2
  }

  lemma {:induction false} MeetAllKeepsInv(r: Party, p: Party, s: Pair, es: seq<Exchange>)
    requires Matching(r, p) && PairInv(r, p, s)
    ensures var last := MeetAll(r, p, s, es);
            && PairInv(r, p, last)
            && (Enough(r, p, last) <==> Enough(r, p, s))
            && Gathered(last) == Gathered(s) + Answered(r, p, s, es)
    decreases |es|
  {
    if es != [] {
      MeetKeepsInv(r, p, s, es[0]);
      MeetAllKeepsInv(r, p, Meet(r, p, s, es[0]), es[1..]);
    }
  }

  lemma ReceivedCount(t: Terms, received: map<nat, Commit>)
    requires InStep(t, received)
    ensures var owed := if t.isRequester then t.rounds / 2 else t.rounds;
            |received| <= owed && (|received| == owed <==> NextExpected(t, received) == t.rounds)
  {
    var n := NextExpected(t, received);
    if t.isRequester {
      assert received.Keys == Odds(n);
      OddsCount(n);
    } else {
      assert received.Keys == Below(n);
      BelowCount(n);
    }
    assert |received| == |received.Keys|;
  }

  /** All received means all sent. */
  lemma CompleteNeedsEnough(r: Party, p: Party, s: Pair)
    requires Matching(r, p) && PairInv(r, p, s) && Complete(r, p, s)
    ensures Enough(r, p, s)
  {
    ReceivedCount(r.terms, s.requester.received);
    ReceivedCount(p.terms, s.provider.received);
    SubsetSize(s.requester.received.Keys, Sent(p.terms, s.provider).Keys);
    SubsetSize(s.provider.received.Keys, Sent(r.terms, s.requester).Keys);
  }

  /** What is still to come: wallets to be told, and commitments to be received. */
  function Missing(r: Party, p: Party, s: Pair): int {
    (if s.requester.known.Known() then 0 else 1) + (if s.provider.known.Known() then 0 else 1)
    + r.terms.rounds + r.terms.rounds / 2 - Gathered(s)
  }

  lemma DueLeavesIndex(t: Terms, n: Peer, round: nat)
    requires PeerInv(t, n) && Stock(t, n) >= DueCount(t) && round in DueRounds(t)
    ensures round in Sent(t, n) || n.pool.unused != []
  {
    if round !in Sent(t, n) {
      SubsetSize(Sent(t, n).Keys, DueRounds(t) - {round});
      DueSize(t);
      assert |Sent(t, n)| == |Sent(t, n).Keys|;
    }
  }

  /** A valid request for a due round is answered when the indexes suffice. */
  lemma EnoughAnswers(x: Party, a: Peer, y: Party, b: Peer, n: nat)
    requires x.terms.isRequester != y.terms.isRequester && x.terms.rounds == y.terms.rounds
    requires PeerInv(x.terms, a) && PeerInv(y.terms, b) && SentAsReceived(a.received, Sent(y.terms, b))
    requires Wants(x, a) == Some(ForRound(n)) && ValidRoundRequest(y.terms, b.received, n)
    requires Stock(y.terms, b) >= DueCount(y.terms)
    ensures var (a', b') := Serve(x, a, y, b, Delivered);
            && |a'.received| == |a.received| + 1 && b'.received == b.received
            && a'.known == a.known && b'.known == b.known
  {
    AskedIsDue(x, a, y);
    DueLeavesIndex(y.terms, b, n);
    CommittingKeeps(y.terms, b, n);
    ReceivingKeeps(x, a, y, Committing(y.terms, b, n), n);
  }

  /** Of two parties that know each other and are not done, one asks for a valid round. */
  lemma SomeRequestIsValid(r: Party, p: Party, s: Pair)
    requires Matching(r, p) && PairInv(r, p, s) && !Complete(r, p, s)
    requires s.requester.known.Known() && s.provider.known.Known()
    ensures var a, b := Wants(r, s.requester), Wants(p, s.provider);
            || (a.Some? && a.value.ForRound? && ValidRoundRequest(p.terms, s.provider.received, a.value.n))
            || (b.Some? && b.value.ForRound? && ValidRoundRequest(r.terms, s.requester.received, b.value.n))
  {}

  /** Whose request is to be answered next: the requester's, if it wants a wallet or a valid round. */
  predicate RequesterIsNext(r: Party, p: Party, s: Pair) {
    var a := Wants(r, s.requester);
    || a == Some(ForWallet)
    || (a.Some? && Wants(p, s.provider) != Some(ForWallet) && ValidRoundRequest(p.terms, s.provider.received, a.value.n))
  }

  function NextExchange(r: Party, p: Party, s: Pair): Exchange {
    Exchange(RequesterIsNext(r, p, s), Delivered)
  }

  /** Between parties that know each other it brings a commitment. */
  lemma NextRoundIsAnswered(r: Party, p: Party, s: Pair)
    requires Matching(r, p) && PairInv(r, p, s) && !Complete(r, p, s) && Enough(r, p, s)
    requires s.requester.known.Known() && s.provider.known.Known()
    ensures var s' := Meet(r, p, s, NextExchange(r, p, s));
            && Gathered(s') == Gathered(s) + 1
            && s'.requester.known == s.requester.known && s'.provider.known == s.provider.known
  {
    SomeRequestIsValid(r, p, s);
    if RequesterIsNext(r, p, s) {
      EnoughAnswers(r, s.requester, p, s.provider, Wants(r, s.requester).value.n);
    } else {
      EnoughAnswers(p, s.provider, r, s.requester, Wants(p, s.provider).value.n);
    }
  }

  lemma NextExchangeHelps(r: Party, p: Party, s: Pair)
    requires Matching(r, p) && PairInv(r, p, s) && !Complete(r, p, s) && Enough(r, p, s)
    ensures Missing(r, p, Meet(r, p, s, NextExchange(r, p, s))) < Missing(r, p, s)
  {
    if s.requester.known.Known() && s.provider.known.Known() {
      NextRoundIsAnswered(r, p, s);
    }
  }

  // ----- every fair schedule finishes

  /** What decides the requests of the two: what each has received and whom it knows. */
  ghost predicate SameWants(s: Pair, t: Pair) {
    && s.requester.received == t.requester.received && s.requester.known == t.requester.known
    && s.provider.received == t.provider.received && s.provider.known == t.provider.known
  }

  /** An exchange changes nothing about the asker's requests, or brings it something. */
  lemma ServeBringsOrKeeps(x: Party, a: Peer, y: Party, b: Peer, fate: Fate)
    requires PeerWallet(y.wallet, y.ownerFound).Known()
    ensures var (a', b') := Serve(x, a, y, b, fate);
            && b'.received == b.received && b'.known == b.known
            && (|| (a'.received == a.received && a'.known == a.known)
                || (|a'.received| == |a.received| + 1 && a'.known == a.known)
                || (a'.received == a.received && !a.known.Known() && a'.known.Known()))
  {}

  lemma MeetBringsOrKeeps(r: Party, p: Party, s: Pair, e: Exchange)
    requires Matching(r, p)
    ensures var s' := Meet(r, p, s, e);
            Missing(r, p, s') < Missing(r, p, s) || (Missing(r, p, s') == Missing(r, p, s) && SameWants(s, s'))
  {
    if e.byRequester {
      ServeBringsOrKeeps(r, s.requester, p, s.provider, e.fate);
    } else {
      ServeBringsOrKeeps(p, s.provider, r, s.requester, e.fate);
    }
  }

  lemma {:induction false} MissingNeverGrows(r: Party, p: Party, s: Pair, es: seq<Exchange>)
    requires Matching(r, p)
    ensures Missing(r, p, MeetAll(r, p, s, es)) <= Missing(r, p, s)
    decreases |es|
  {
    if es != [] {
      MeetBringsOrKeeps(r, p, s, es[0]);
      MissingNeverGrows(r, p, Meet(r, p, s, es[0]), es[1..]);
    }
  }

  /** A run in which each side once asks and is heard and answered. */
  ghost predicate Fair(es: seq<Exchange>) {
    Exchange(true, Delivered) in es && Exchange(false, Delivered) in es
  }

  /** Whatever else happens before it, the next exchange helps when it comes. */
  lemma {:induction false} NextExchangeComes(r: Party, p: Party, s: Pair, es: seq<Exchange>)
    requires Matching(r, p) && PairInv(r, p, s) && !Complete(r, p, s) && Enough(r, p, s)
    requires NextExchange(r, p, s) in es
    ensures Missing(r, p, MeetAll(r, p, s, es)) < Missing(r, p, s)
    decreases |es|
  {
    var s' := Meet(r, p, s, es[0]);
    if es[0] == NextExchange(r, p, s) {
      NextExchangeHelps(r, p, s);
    }
    MeetBringsOrKeeps(r, p, s, es[0]);
    if Missing(r, p, s') < Missing(r, p, s) {
      MissingNeverGrows(r, p, s', es[1..]);
    } else {
      MeetKeepsInv(r, p, s, es[0]);
      assert NextExchange(r, p, s') == NextExchange(r, p, s);
      NextExchangeComes(r, p, s', es[1..]);
    }
  }

  function Flat(blocks: seq<seq<Exchange>>): seq<Exchange> {
    if blocks == [] then [] else blocks[0] + Flat(blocks[1..])
  }

  lemma {:induction false} MeetAllConcat(r: Party, p: Party, s: Pair, a: seq<Exchange>, b: seq<Exchange>)
    ensures MeetAll(r, p, s, a + b) == MeetAll(r, p, MeetAll(r, p, s, a), b)
    decreases |a|
  {
    if a == [] {
      assert a + b == b;
    } else {
      assert (a + b)[1..] == a[1..] + b;
      MeetAllConcat(r, p, Meet(r, p, s, a[0]), a[1..], b);
    }
  }

  /** Complete means everything gathered, and stays so. */
  lemma CompleteIffGathered(r: Party, p: Party, s: Pair)
    requires Matching(r, p) && PairInv(r, p, s)
    ensures Gathered(s) <= r.terms.rounds + r.terms.rounds / 2
    ensures Complete(r, p, s) <==> Gathered(s) == r.terms.rounds + r.terms.rounds / 2
  {
    ReceivedCount(r.terms, s.requester.received);
    ReceivedCount(p.terms, s.provider.received);
  }

  lemma CompleteStays(r: Party, p: Party, s: Pair, es: seq<Exchange>)
    requires Matching(r, p) && PairInv(r, p, s) && Complete(r, p, s)
    ensures Complete(r, p, MeetAll(r, p, s, es))
  {
    MeetAllKeepsInv(r, p, s, es);
    CompleteIffGathered(r, p, s);
    CompleteIffGathered(r, p, MeetAll(r, p, s, es));
  }

  /** As many fair blocks as there are things missing. */
  ghost predicate FairFor(r: Party, p: Party, s: Pair, blocks: seq<seq<Exchange>>) {
    |blocks| >= Missing(r, p, s) && forall i :: 0 <= i < |blocks| ==> Fair(blocks[i])
  }

  lemma {:induction false} FairPeersFinish(r: Party, p: Party, s: Pair, blocks: seq<seq<Exchange>>)
    requires Matching(r, p) && PairInv(r, p, s) && Enough(r, p, s) && FairFor(r, p, s, blocks)
    ensures Complete(r, p, MeetAll(r, p, s, Flat(blocks)))
    decreases |blocks|
  {
    if Complete(r, p, s) {
      CompleteStays(r, p, s, Flat(blocks));
    } else {
      CompleteIffGathered(r, p, s);
      assert Fair(blocks[0]);
      NextExchangeComes(r, p, s, blocks[0]);
      MeetAllKeepsInv(r, p, s, blocks[0]);
      MeetAllConcat(r, p, s, blocks[0], Flat(blocks[1..]));
      FairPeersFinish(r, p, MeetAll(r, p, s, blocks[0]), blocks[1..]);
    }
  }

  /** The shortest fair block, so often. */
  function Turns(n: nat): seq<seq<Exchange>> {
    seq(n, i => [Exchange(true, Delivered), Exchange(false, Delivered)])
  }

  lemma TurnsAreFair(r: Party, p: Party, s: Pair)
    requires Matching(r, p) && PairInv(r, p, s)
    ensures Missing(r, p, s) >= 0 && FairFor(r, p, s, Turns(Missing(r, p, s)))
  {
    CompleteIffGathered(r, p, s);
  }

  /**
   Whatever is lost or repeated in between, and in whatever order: once each side has asked
   and been answered as often as something was missing, both are done. That holds of every
   such schedule exactly when the indexes suffice.
   */
  lemma {:induction false} FairSchedulesFinishIff(r: Party, p: Party, s: Pair)
    requires Matching(r, p) && PairInv(r, p, s)
    ensures (forall blocks :: FairFor(r, p, s, blocks) ==> Complete(r, p, MeetAll(r, p, s, Flat(blocks))))
            <==> Enough(r, p, s)
  {
    if Enough(r, p, s) {
      forall blocks | FairFor(r, p, s, blocks) ensures Complete(r, p, MeetAll(r, p, s, Flat(blocks))) {
        FairPeersFinish(r, p, s, blocks);
      }
    } else {
      TurnsAreFair(r, p, s);
      var es := Flat(Turns(Missing(r, p, s)));
      MeetAllKeepsInv(r, p, s, es);
      if Complete(r, p, MeetAll(r, p, s, es)) {
        CompleteNeedsEnough(r, p, MeetAll(r, p, s, es));
      }
    }
  }

  // ----- how many requests, and whether at all

  /**
   Two honest peers. Whatever is lost, they are done exactly after N + N / 2 answered
   requests, for any number of rounds N.
   */
  lemma {:induction false} HonestPeersFinish(r: Party, p: Party, s: Pair, es: seq<Exchange>)
    requires Matching(r, p) && PairInv(r, p, s)
    ensures var done := Gathered(s) + Answered(r, p, s, es);
            && done <= r.terms.rounds + r.terms.rounds / 2
            && (Complete(r, p, MeetAll(r, p, s, es)) <==> done == r.terms.rounds + r.terms.rounds / 2)
  {
    var last := MeetAll(r, p, s, es);
    MeetAllKeepsInv(r, p, s, es);
    CompleteIffGathered(r, p, last);
  }

  /**
   And whatever has happened so far, they can still finish exactly when each side's unused
   indexes and the commitments it has made come to what it has to commit.
   */
  lemma {:induction false} CanFinishIff(r: Party, p: Party, s: Pair, es: seq<Exchange>)
    requires Matching(r, p) && PairInv(r, p, s)
    ensures CanFinish(r, p, MeetAll(r, p, s, es)) <==> Enough(r, p, s)
  {
    var last := MeetAll(r, p, s, es);
    MeetAllKeepsInv(r, p, s, es);
    if Enough(r, p, s) {
      TurnsAreFair(r, p, last);
      FairPeersFinish(r, p, last, Turns(Missing(r, p, last)));
    }
    if CanFinish(r, p, last) {
      var more :| Complete(r, p, MeetAll(r, p, last, more));
      MeetAllKeepsInv(r, p, last, more);
      CompleteNeedsEnough(r, p, MeetAll(r, p, last, more));
    }
  }

  // ----- from the beginning

  /** Both begin the query, with nothing received and nobody known. */
  function Beginning(query: nat, requesterPool: Pool, providerPool: Pool): Pair {
    Pair(Peer(StartProcedure(requesterPool, query), map[], PeerWallet(0, 0)),
         Peer(StartProcedure(providerPool, query), map[], PeerWallet(0, 0)))
  }

  /** With nothing received, a requester first asks for round 1 and a provider for round 0. */
  lemma NothingReceived(t: Terms)
    ensures InStep(t, map[])
    ensures NextExpected(t, map[]) <= if t.isRequester then 1 else 0
  {
    assert Owed(t, if t.isRequester then 1 else 0);
  }

  lemma BeginningInv(r: Party, p: Party, requesterPool: Pool, providerPool: Pool)
    requires Matching(r, p)
    ensures var s := Beginning(r.terms.queryId, requesterPool, providerPool);
            && PairInv(r, p, s)
            && (Enough(r, p, s) <==> |requesterPool.unused| >= r.terms.rounds && |providerPool.unused| >= r.terms.rounds / 2)
  {
    NothingReceived(r.terms);
    NothingReceived(p.terms);
  }

  /**
   From the beginning on, they can finish exactly when the requester has an index for
   every round and the provider one for every other: up to 99 rounds with fresh pools.
   */
  lemma PoolsDecide(r: Party, p: Party, requesterPool: Pool, providerPool: Pool, es: seq<Exchange>)
    requires Matching(r, p)
    ensures var s := Beginning(r.terms.queryId, requesterPool, providerPool);
            CanFinish(r, p, MeetAll(r, p, s, es)) <==>
              |requesterPool.unused| >= r.terms.rounds && |providerPool.unused| >= r.terms.rounds / 2
  {
    BeginningInv(r, p, requesterPool, providerPool);
    CanFinishIff(r, p, Beginning(r.terms.queryId, requesterPool, providerPool), es);
  }

  /** The pools stay partitioned through every run of the pair: no index is used twice. */
  lemma {:induction false} PairKeepsPools(r: Party, p: Party, s: Pair, es: seq<Exchange>, a: set<nat>, b: set<nat>)
    requires Partition(s.requester.pool, a) && Partition(s.provider.pool, b)
    ensures var last := MeetAll(r, p, s, es);
            Partition(last.requester.pool, a) && Partition(last.provider.pool, b)
    decreases |es|
  {
    if es != [] {
      var x, n, t, round := if es[0].byRequester then Wants(r, s.requester) else Wants(p, s.provider),
        if es[0].byRequester then s.provider else s.requester, if es[0].byRequester then p.terms else r.terms, 0;
      if x.Some? && x.value.ForRound? {
        round := x.value.n;
      }
      CommitKeepsPartition(n.pool, t.queryId, round, NewCommit(t, n.known.owner, 0, CommitmentType(t, round)),
                           if es[0].byRequester then b else a);
      PairKeepsPools(r, p, Meet(r, p, s, es[0]), es[1..], a, b);
    }
  }

  // ----- whose addresses two honest peers' commitments carry

  /** A party that does not know the other has asked for no round yet. */
  ghost predicate Acquaintance(t: Terms, n: Peer, other: Party) {
    if n.known.Known() then n.known == PeerWallet(other.wallet, other.ownerFound) else n.received == map[]
  }

  ghost predicate AddressedInv(r: Party, p: Party, s: Pair) {
    && PairInv(r, p, s)
    && Acquaintance(r.terms, s.requester, p) && Acquaintance(p.terms, s.provider, r)
    && AsAgreed(r.terms, p.terms.selfAddress, BookOf(r.terms, s.requester))
    && AsAgreed(p.terms, r.terms.selfAddress, BookOf(p.terms, s.provider))
  }

  /** The lookups find the owners, and no T2 falls in the first two rounds. */
  ghost predicate NamesInTime(r: Party, p: Party) {
    && Matching(r, p)
    && r.ownerFound == r.terms.selfAddress && p.ownerFound == p.terms.selfAddress
    && (r.terms.rounds == 0 || r.terms.rounds >= 4)
  }

  lemma ServeAddresses(x: Party, a: Peer, y: Party, b: Peer, fate: Fate)
    requires x.terms.isRequester != y.terms.isRequester && x.terms.rounds == y.terms.rounds
    requires x.terms.rounds == 0 || x.terms.rounds >= 4
    requires PeerInv(y.terms, b) && Acquaintance(y.terms, b, x) && x.ownerFound == x.terms.selfAddress
    requires AsAgreed(y.terms, x.terms.selfAddress, BookOf(y.terms, b))
    ensures var b' := Serve(x, a, y, b, fate).1;
            AsAgreed(y.terms, x.terms.selfAddress, BookOf(y.terms, b')) && Acquaintance(y.terms, b', x)
  {
    if Wants(x, a).Some? && Wants(x, a).value.ForRound? {
      var n := Wants(x, a).value.n;
      CommittingIsAsking(y.terms, b, n);
      ActAsAgreedIff(y.terms, x.terms.selfAddress, BookOf(y.terms, b), Ask(n, Top(b.pool)));
      NothingReceived(y.terms);
    }
  }

  lemma ServeAcquaints(x: Party, a: Peer, y: Party, b: Peer, fate: Fate)
    requires Acquaintance(x.terms, a, y) && PeerWallet(y.wallet, y.ownerFound).Known()
    ensures var a' := Serve(x, a, y, b, fate).0;
            Acquaintance(x.terms, a', y) && Sent(x.terms, a') == Sent(x.terms, a)
  {}

  lemma MeetAddresses(r: Party, p: Party, s: Pair, e: Exchange)
    requires NamesInTime(r, p) && AddressedInv(r, p, s)
    ensures AddressedInv(r, p, Meet(r, p, s, e))
  {
    MeetKeepsInv(r, p, s, e);
    if e.byRequester {
      ServeAddresses(r, s.requester, p, s.provider, e.fate);
      ServeAcquaints(r, s.requester, p, s.provider, e.fate);
    } else {
      ServeAddresses(p, s.provider, r, s.requester, e.fate);
      ServeAcquaints(p, s.provider, r, s.requester, e.fate);
    }
  }

  lemma {:induction false} MeetAllAddresses(r: Party, p: Party, s: Pair, es: seq<Exchange>)
    requires NamesInTime(r, p) && AddressedInv(r, p, s)
    ensures AddressedInv(r, p, MeetAll(r, p, s, es))
    decreases |es|
  {
    if es != [] {
      MeetAddresses(r, p, s, es[0]);
      MeetAllAddresses(r, p, Meet(r, p, s, es[0]), es[1..]);
    }
  }

  ghost predicate BothAsAgreed(r: Party, p: Party, s: Pair) {
    && AsAgreed(r.terms, p.terms.selfAddress, BookOf(r.terms, s.requester))
    && AsAgreed(p.terms, r.terms.selfAddress, BookOf(p.terms, s.provider))
  }

  /** A requester that knows nobody answers a request for a round of the second half. */
  lemma CommitsToNobody(r: Party, p: Party, s: Pair, n: nat)
    requires Matching(r, p) && p.terms.selfAddress != 0 && s.requester.known == PeerWallet(0, 0)
    requires Wants(p, s.provider) == Some(ForRound(n)) && ValidRoundRequest(r.terms, s.requester.received, n)
    requires r.terms.queryId in s.requester.pool.ongoing
    requires n !in Sent(r.terms, s.requester) && s.requester.pool.unused != [] && n >= r.terms.rounds / 2
    ensures !BothAsAgreed(r, p, Meet(r, p, s, Exchange(false, Delivered)))
  {
    CommittingIsAsking(r.terms, s.requester, n);
    ActAsAgreedIff(r.terms, p.terms.selfAddress, BookOf(r.terms, s.requester), Ask(n, Top(s.requester.pool)));
  }

  /** The provider asks for the wallet and then for the first rounds; the requester is slow to ask. */
  lemma FewRoundsMisaddress(r: Party, p: Party, s: Pair) returns (es: seq<Exchange>)
    requires Matching(r, p) && p.terms.selfAddress != 0 && 1 <= r.terms.rounds <= 3
    requires exists q, q' :: s == Beginning(r.terms.queryId, q, q')
    requires |s.requester.pool.unused| >= 2
    ensures !BothAsAgreed(r, p, MeetAll(r, p, s, es))
  {
    var ask := Exchange(false, Delivered);
    NothingReceived(r.terms);
    var s1 := Meet(r, p, s, ask);
    assert s1.requester == s.requester && s1.provider.known.Known() && s1.provider.received == map[];
    NothingReceived(p.terms);
    var s2 := Meet(r, p, s1, ask);
    if r.terms.rounds == 1 {
      CommitsToNobody(r, p, s1, 0);
      es := [ask, ask];
      assert es[1..] == [ask] && [ask][1..] == [];
      assert MeetAll(r, p, s, es) == MeetAll(r, p, s1, [ask]) == Meet(r, p, s1, ask);
    } else {
      CommittingIsAsking(r.terms, s1.requester, 0);
      assert s2.provider.received.Keys == {0} && s2.requester.received == map[];
      assert Owed(p.terms, 1) && NextExpected(p.terms, s2.provider.received) == 1;
      CommitsToNobody(r, p, s2, 1);
      es := [ask, ask, ask];
      assert es[1..] == [ask, ask] && [ask, ask][1..] == [ask] && [ask][1..] == [];
      assert MeetAll(r, p, s, es) == MeetAll(r, p, s1, [ask, ask]) == MeetAll(r, p, s2, [ask]) == Meet(r, p, s2, ask);
    }
  }

  /**
   Between honest peers whose lookups find the right owners, every commitment of every run
   is as agreed exactly when there are four rounds or more (or none): with fewer, the
   requester may be asked for a T2 before it has asked whom it deals with.
   */
  lemma HonestAsAgreedIff(r: Party, p: Party, requesterPool: Pool, providerPool: Pool)
    requires Matching(r, p) && |requesterPool.unused| >= 2
    requires r.ownerFound == r.terms.selfAddress && p.ownerFound == p.terms.selfAddress
    ensures (forall es :: BothAsAgreed(r, p, MeetAll(r, p, Beginning(r.terms.queryId, requesterPool, providerPool), es)))
            <==> r.terms.rounds == 0 || r.terms.rounds >= 4
  {
    var s := Beginning(r.terms.queryId, requesterPool, providerPool);
    if r.terms.rounds == 0 || r.terms.rounds >= 4 {
      BeginningInv(r, p, requesterPool, providerPool);
      forall es ensures BothAsAgreed(r, p, MeetAll(r, p, s, es)) {
        MeetAllAddresses(r, p, s, es);
      }
    } else {
      var es := FewRoundsMisaddress(r, p, s);
    }
  }
}
