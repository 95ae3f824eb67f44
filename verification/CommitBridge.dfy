/**
 From recorded commits to claims on the wallet. Pairwise disjoint live commits, taken
 apart into single indexes, give claims with different identifiers; so the wallet
 accepts them in any order and in any division into calls.
 */
module CommitBridge {
  import opened Common
  import opened WalletModel
  import opened WalletBatches
  import opened CommitHistory

  /** One index of one recorded commit, with the record that redeems it. */
  datatype Claim = Claim(position: nat, record: RedeemRecord)

  /** One redeem call: a recipient and the claims batched in it. */
  datatype Call = Call(to: Address, claims: seq<Claim>)

  ghost predicate BackedByT2(commits: seq<Commit>, c: Claim) {
    && c.position < |commits|
    && commits[c.position].cType == T2
    && Covers(commits[c.position].indexes, c.record.index)
  }

  /** No commit's index is claimed twice. */
  ghost predicate OncePerCommit(claims: seq<Claim>) {
    forall i, j :: 0 <= i < j < |claims| ==>
      claims[i].position != claims[j].position || claims[i].record.index != claims[j].record.index
  }

  ghost predicate DistinctIndexes(claims: seq<Claim>) {
    forall i, j :: 0 <= i < j < |claims| ==> claims[i].record.index != claims[j].record.index
  }

  /** Off-chain disjointness is on-chain distinctness. */
  lemma DisjointCommitsGiveDistinctClaims(commits: seq<Commit>, claims: seq<Claim>)
    requires LiveDisjoint(commits) && OncePerCommit(claims)
    requires forall i :: 0 <= i < |claims| ==> BackedByT2(commits, claims[i])
    ensures DistinctIndexes(claims)
  {
    forall i, j | 0 <= i < j < |claims| ensures claims[i].record.index != claims[j].record.index {
      var p, q := claims[i].position, claims[j].position;
      assert BackedByT2(commits, claims[i]) && BackedByT2(commits, claims[j]);
      assert Live(commits[p]) && Live(commits[q]);
      if p < q {
        assert DisjointRanges(commits[p].indexes, commits[q].indexes);
      } else if q < p {
        assert DisjointRanges(commits[q].indexes, commits[p].indexes);
      }
    }
  }

  function Records(claims: seq<Claim>): (r: seq<RedeemRecord>)
    ensures |r| == |claims|
  {
    seq(|claims|, i requires 0 <= i < |claims| => claims[i].record)
  }

  function AllClaims(calls: seq<Call>): seq<Claim> {
    if calls == [] then [] else calls[0].claims + AllClaims(calls[1..])
  }

  function RedeemAll(cfg: Config, s: State, calls: seq<Call>): Outcome
    decreases |calls|
  {
    if calls == [] then Done(s)
    else match Redeem(cfg, s, calls[0].to, Records(calls[0].claims))
      case Reverted => Reverted
      case Done(t) => RedeemAll(cfg, t, calls[1..])
  }

  ghost predicate Redeemable(cfg: Config, s: State, claims: seq<Claim>) {
    forall i :: 0 <= i < |claims| ==> !Taken(s, Key(claims[i].record.index, s.currentEpoch))
  }

  ghost predicate CallsSigned(cfg: Config, epoch: nat, calls: seq<Call>) {
    forall n :: 0 <= n < |calls| ==>
      forall i :: 0 <= i < |calls[n].claims| ==> RedeemSigned(cfg, epoch, calls[n].to, calls[n].claims[i].record)
  }

  lemma FirstCall(cfg: Config, s: State, call: Call, rest: seq<Claim>)
    requires DistinctIndexes(call.claims + rest) && Redeemable(cfg, s, call.claims + rest)
    requires forall i :: 0 <= i < |call.claims| ==> RedeemSigned(cfg, s.currentEpoch, call.to, call.claims[i].record)
    requires cfg.indexValue * |call.claims| < U256_SIZE
    ensures RedeemAccepted(cfg, s, call.to, Records(call.claims))
    ensures DistinctIndexes(rest)
    ensures var keys := Elements(RedeemKeys(s.currentEpoch, Records(call.claims)));
            forall i :: 0 <= i < |rest| ==> Key(rest[i].record.index, s.currentEpoch) !in keys
    ensures Redeemable(cfg, s, rest)
  {
    var all := call.claims + rest;
    var a := |call.claims|;
    assert forall i :: 0 <= i < a ==> all[i] == call.claims[i];
    forall i | 0 <= i < |rest| ensures all[a + i] == rest[i] {}
    forall i, j | 0 <= i < j < |rest| ensures rest[i].record.index != rest[j].record.index {
      assert all[a + i].record.index != all[a + j].record.index;
    }
    var keys := RedeemKeys(s.currentEpoch, Records(call.claims));
    forall i | 0 <= i < |rest| ensures Key(rest[i].record.index, s.currentEpoch) !in Elements(keys) {
      forall j | 0 <= j < |keys| ensures keys[j].index != rest[i].record.index {
        assert all[j].record.index != all[a + i].record.index;
      }
    }
    forall i | 0 <= i < |rest| ensures !Taken(s, Key(rest[i].record.index, s.currentEpoch)) {
      assert !Taken(s, Key(all[a + i].record.index, s.currentEpoch));
    }
  }

  /** Distinct, unclaimed and signed claims are all accepted, however they are batched. */
  lemma {:induction false} RedeemAllSucceeds(cfg: Config, s: State, calls: seq<Call>)
    requires DistinctIndexes(AllClaims(calls)) && Redeemable(cfg, s, AllClaims(calls))
    requires CallsSigned(cfg, s.currentEpoch, calls)
    requires cfg.indexValue * |AllClaims(calls)| <= s.balance < U256_SIZE
    ensures RedeemAll(cfg, s, calls).Done?
    ensures RedeemAll(cfg, s, calls).state.balance == s.balance - cfg.indexValue * |AllClaims(calls)|
    decreases |calls|
  {
    if calls != [] {
      var call, rest := calls[0], AllClaims(calls[1..]);
      ValueOfSum(cfg, |call.claims|, |rest|);
      FirstCall(cfg, s, call, rest);
      RedeemSucceedsIff(cfg, s, call.to, Records(call.claims));
      var t := Redeem(cfg, s, call.to, Records(call.claims)).state;
      RestRedeemable(cfg, s, t, call, rest);
      RedeemAllSucceeds(cfg, t, calls[1..]);
    }
  }

  lemma RestRedeemable(cfg: Config, s: State, t: State, call: Call, rest: seq<Claim>)
    requires Redeemable(cfg, s, rest) && t.currentEpoch == s.currentEpoch && t.burnTime == s.burnTime
    requires t.claimed == s.claimed + Elements(RedeemKeys(s.currentEpoch, Records(call.claims)))
    requires var keys := Elements(RedeemKeys(s.currentEpoch, Records(call.claims)));
             forall i :: 0 <= i < |rest| ==> Key(rest[i].record.index, s.currentEpoch) !in keys
    ensures Redeemable(cfg, t, rest)
  {
    forall i | 0 <= i < |rest| ensures !Taken(t, Key(rest[i].record.index, t.currentEpoch)) {
      assert !Taken(s, Key(rest[i].record.index, s.currentEpoch));
    }
  }

  /**
   A history built by vetted appends lets every T2 index be redeemed: whatever the
   order of the claims and their division into calls and recipients, no call fails the
   claim check as long as nothing was claimed or burned before and the funds suffice.
   */
  lemma VettedCommitsRedeem(cfg: Config, s: State, ops: seq<HistoryOp>, calls: seq<Call>)
    requires var commits := ApplyAll([], ops);
             forall i :: 0 <= i < |AllClaims(calls)| ==> BackedByT2(commits, AllClaims(calls)[i])
    requires OncePerCommit(AllClaims(calls)) && Redeemable(cfg, s, AllClaims(calls))
    requires CallsSigned(cfg, s.currentEpoch, calls)
    requires cfg.indexValue * |AllClaims(calls)| <= s.balance < U256_SIZE
    ensures RedeemAll(cfg, s, calls).Done?
    ensures RedeemAll(cfg, s, calls).state.balance == s.balance - cfg.indexValue * |AllClaims(calls)|
  {
    LiveCommitsStayDisjoint([], ops);
    DisjointCommitsGiveDistinctClaims(ApplyAll([], ops), AllClaims(calls));
    RedeemAllSucceeds(cfg, s, calls);
  }
}
