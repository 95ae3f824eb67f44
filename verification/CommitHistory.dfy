/**
 The recorded commits of one wallet and the double-spend scan over their index ranges.
 A commit's endpoints are read in pairs: positions i - 1 and i, for odd i, are a range
 with both ends included.
 */
module CommitHistory {
  import opened Common
  import opened TradeModel
  import WalletModel

  type Signature = WalletModel.Signature

  datatype CommitType = T1 | T2

  datatype Commit = Commit(
    indexes: seq<nat>,
    epoch: nat,
    u: nat,
    cType: CommitType,
    iAddress: Address,
    rAddress: Address,
    walletAddress: Address,
    signature: Option<Signature>,
    invalidatingSignature: Option<Signature>
  )

  // ----- what a commit stands for

  /** A live commit still binds its indexes: an invalidated T1 does not. */
  predicate Live(c: Commit) {
    !(c.cType == T1 && c.invalidatingSignature != None)
  }

  ghost predicate NonDecreasing(a: seq<nat>) {
    forall i, j :: 0 <= i <= j < |a| ==> a[i] <= a[j]
  }

  /** Every recorded range runs upward. */
  ghost predicate RangesRunUp(a: seq<nat>) {
    forall i :: 0 < i < |a| && i % 2 == 1 ==> a[i - 1] <= a[i]
  }

  ghost predicate InPair(a: seq<nat>, i: nat, x: nat) {
    0 < i < |a| && i % 2 == 1 && a[i - 1] <= x <= a[i]
  }

  /** The indexes a commit covers. */
  ghost predicate Covers(a: seq<nat>, x: nat) {
    exists i :: InPair(a, i, x)
  }

  ghost predicate DisjointRanges(a: seq<nat>, b: seq<nat>) {
    forall x :: !(Covers(a, x) && Covers(b, x))
  }

  // ----- the scan

  predicate Meets(recorded: seq<nat>, i: nat, proposed: seq<nat>, j: nat) {
    && 0 < i < |recorded| && i % 2 == 1
    && 0 < j < |proposed|
    && proposed[j] >= recorded[i - 1] && proposed[j - 1] <= recorded[i]
  }

  ghost predicate ScanFinds(recorded: seq<nat>, proposed: seq<nat>) {
    exists i: nat, j: nat :: Meets(recorded, i, proposed, j)
  }

  ghost predicate Conflicts(c: Commit, proposed: seq<nat>) {
    Live(c) && ScanFinds(c.indexes, proposed)
  }

  /** A range [lo, hi] meets the hull of the proposed endpoints. */
  ghost predicate MeetsHull(recorded: seq<nat>, i: nat, proposed: seq<nat>) {
    && 0 < i < |recorded| && i % 2 == 1
    && |proposed| >= 2
    && recorded[i - 1] <= proposed[|proposed| - 1] && proposed[0] <= recorded[i]
  }

  /** Some adjacent pair of a non-decreasing sequence spans any point of its hull. */
  lemma AdjacentPair(recorded: seq<nat>, i: nat, proposed: seq<nat>)
    requires NonDecreasing(proposed) && MeetsHull(recorded, i, proposed) && recorded[i - 1] <= recorded[i]
    ensures exists j :: Meets(recorded, i, proposed, j)
  {
    var j := 1;
    while proposed[j] < recorded[i - 1]
      invariant 1 <= j < |proposed|
      invariant proposed[j - 1] <= recorded[i]
      decreases |proposed| - j
    {
      j := j + 1;
    }
    assert Meets(recorded, i, proposed, j);
  }

  /**
   For non-decreasing proposed endpoints and upward recorded ranges, the nested scan
   finds something exactly when a recorded range meets the hull of the proposed ones.
   */
  lemma ScanDecidesHull(recorded: seq<nat>, proposed: seq<nat>)
    requires NonDecreasing(proposed) && RangesRunUp(recorded)
    ensures ScanFinds(recorded, proposed) <==> exists i :: MeetsHull(recorded, i, proposed)
  {
    if ScanFinds(recorded, proposed) {
      var i, j :| Meets(recorded, i, proposed, j);
      assert MeetsHull(recorded, i, proposed);
    }
    if i :| MeetsHull(recorded, i, proposed) {
      AdjacentPair(recorded, i, proposed);
    }
  }

  lemma SharedIndexIsFound(recorded: seq<nat>, proposed: seq<nat>, x: nat)
    requires Covers(recorded, x) && Covers(proposed, x)
    ensures ScanFinds(recorded, proposed)
  {
    var i :| InPair(recorded, i, x);
    var j :| InPair(proposed, j, x);
    assert Meets(recorded, i, proposed, j);
  }

  /** Finding nothing means sharing no index, whatever the recorded endpoints. */
  lemma NoConflictMeansDisjoint(recorded: seq<nat>, proposed: seq<nat>)
    requires NonDecreasing(proposed) && !ScanFinds(recorded, proposed)
    ensures DisjointRanges(recorded, proposed)
  {
    forall x | Covers(recorded, x) && Covers(proposed, x) ensures false {
      SharedIndexIsFound(recorded, proposed, x);
    }
  }

  /** The proposed ranges leave no gap between their first and last endpoints. */
  ghost predicate NoGaps(proposed: seq<nat>)
    requires |proposed| >= 2
  {
    forall x :: proposed[0] <= x <= proposed[|proposed| - 1] ==> Covers(proposed, x)
  }

  /** A scan is right about a recorded commit when it finds exactly a shared index. */
  ghost predicate Exact(recorded: seq<nat>, proposed: seq<nat>) {
    ScanFinds(recorded, proposed) <==> !DisjointRanges(recorded, proposed)
  }

  lemma NoGapsIsExact(recorded: seq<nat>, proposed: seq<nat>)
    requires |proposed| >= 2 && NonDecreasing(proposed) && NoGaps(proposed) && RangesRunUp(recorded)
    ensures Exact(recorded, proposed)
  {
    ScanDecidesHull(recorded, proposed);
    if ScanFinds(recorded, proposed) {
      var i :| MeetsHull(recorded, i, proposed);
      var x := if recorded[i - 1] <= proposed[0] then proposed[0] else recorded[i - 1];
      assert proposed[0] <= x <= proposed[|proposed| - 1];
      assert InPair(recorded, i, x);
      assert Covers(recorded, x) && Covers(proposed, x);
    } else {
      NoConflictMeansDisjoint(recorded, proposed);
    }
  }

  lemma GapIsFalseAlarm(proposed: seq<nat>, x: nat)
    requires |proposed| >= 2 && NonDecreasing(proposed)
    requires proposed[0] <= x <= proposed[|proposed| - 1] && !Covers(proposed, x)
    ensures !Exact([x, x], proposed)
  {
    assert MeetsHull([x, x], 1, proposed);
    ScanDecidesHull([x, x], proposed);
    forall y | Covers([x, x], y) ensures y == x {
      var i :| InPair([x, x], i, y);
    }
  }

  /**
   A disjoint commit can be refused: the scan is exact about every possible recorded
   commit exactly when the proposed ranges leave no gap between them.
   */
  lemma ExactIffNoGaps(proposed: seq<nat>)
    requires |proposed| >= 2 && NonDecreasing(proposed)
    ensures (forall recorded :: RangesRunUp(recorded) ==> Exact(recorded, proposed)) <==> NoGaps(proposed)
  {
    if NoGaps(proposed) {
      forall recorded | RangesRunUp(recorded) ensures Exact(recorded, proposed) {
        NoGapsIsExact(recorded, proposed);
      }
    } else {
      var x :| proposed[0] <= x <= proposed[|proposed| - 1] && !Covers(proposed, x);
      GapIsFalseAlarm(proposed, x);
      assert RangesRunUp([x, x]);
    }
  }

  /** For a single proposed range the scan is exact. */
  lemma SingleRangeIsExact(recorded: seq<nat>, lo: nat, hi: nat)
    requires lo <= hi && RangesRunUp(recorded)
    ensures ScanFinds(recorded, [lo, hi]) <==> !DisjointRanges(recorded, [lo, hi])
  {
    forall x | lo <= x <= hi ensures Covers([lo, hi], x) {
      assert InPair([lo, hi], 1, x);
    }
    NoGapsIsExact(recorded, [lo, hi]);
  }

  // ----- the history as a value

  function Invalidated(commits: seq<Commit>, id: nat, sig: Signature): (r: seq<Commit>)
    ensures |r| == |commits|
    ensures forall i :: 0 <= i < |r| ==>
              r[i] == if commits[i].u == id then commits[i].(invalidatingSignature := Some(sig)) else commits[i]
  {
    seq(|commits|, i requires 0 <= i < |commits| =>
      if commits[i].u == id then commits[i].(invalidatingSignature := Some(sig)) else commits[i])
  }

  datatype HistoryOp = Append(commit: Commit) | Invalidate(id: nat, sig: Signature)

  /** An append is taken only when its endpoints are ordered and the scan finds nothing. */
  ghost predicate Admissible(commits: seq<Commit>, c: Commit) {
    NonDecreasing(c.indexes) && forall i :: 0 <= i < |commits| ==> !Conflicts(commits[i], c.indexes)
  }

  ghost function ApplyOp(commits: seq<Commit>, op: HistoryOp): seq<Commit> {
    match op
    case Append(c) => if Admissible(commits, c) then commits + [c] else commits
    case Invalidate(id, sig) => Invalidated(commits, id, sig)
  }

  ghost function ApplyAll(commits: seq<Commit>, ops: seq<HistoryOp>): seq<Commit>
    decreases |ops|
  {
    if ops == [] then commits else ApplyAll(ApplyOp(commits, ops[0]), ops[1..])
  }

  ghost predicate LiveDisjoint(commits: seq<Commit>) {
    forall i, j :: 0 <= i < j < |commits| && Live(commits[i]) && Live(commits[j]) ==>
      DisjointRanges(commits[i].indexes, commits[j].indexes)
  }

  lemma ApplyOpKeepsDisjoint(commits: seq<Commit>, op: HistoryOp)
    requires LiveDisjoint(commits)
    ensures LiveDisjoint(ApplyOp(commits, op))
  {
    var after := ApplyOp(commits, op);
    forall i, j | 0 <= i < j < |after| && Live(after[i]) && Live(after[j])
      ensures DisjointRanges(after[i].indexes, after[j].indexes)
    {
      if j == |commits| {
        assert !Conflicts(commits[i], after[j].indexes);
        NoConflictMeansDisjoint(after[i].indexes, after[j].indexes);
      } else {
        assert Live(commits[i]) && Live(commits[j]);
      }
    }
  }

  /** Live commits stay pairwise disjoint over every sequence of appends and invalidations. */
  lemma {:induction false} LiveCommitsStayDisjoint(commits: seq<Commit>, ops: seq<HistoryOp>)
    requires LiveDisjoint(commits)
    ensures LiveDisjoint(ApplyAll(commits, ops))
    decreases |ops|
  {
    if ops != [] {
      ApplyOpKeepsDisjoint(commits, ops[0]);
      LiveCommitsStayDisjoint(ApplyOp(commits, ops[0]), ops[1..]);
    }
  }

  /**
   No commit is ever removed or rewritten, and one that is no longer live stays so:
   only an invalidating signature is added, and only T1 commits die of it.
   */
  lemma {:induction false} NeverRevived(commits: seq<Commit>, ops: seq<HistoryOp>, n: nat)
    requires n < |commits|
    ensures var after := ApplyAll(commits, ops);
            && n < |after|
            && after[n].(invalidatingSignature := None) == commits[n].(invalidatingSignature := None)
            && (!Live(commits[n]) ==> !Live(after[n]))
            && (commits[n].cType == T2 ==> Live(after[n]))
    decreases |ops|
  {
    if ops != [] {
      NeverRevived(ApplyOp(commits, ops[0]), ops[1..], n);
    }
  }

  // ----- what an invalidation frees

  /** A commit stands in the way exactly when it is a T2 or not invalidated, and the scan finds something. */
  lemma ConflictsExactly(c: Commit, proposed: seq<nat>)
    ensures Conflicts(c, proposed) <==>
              && (c.cType == T2 || c.invalidatingSignature == None)
              && exists i: nat, j: nat :: Meets(c.indexes, i, proposed, j)
  {}

  /**
   After an invalidation no T1 of its id is in conflict with anything, and all else is in
   conflict with what it was in conflict with before.
   */
  lemma InvalidationFrees(commits: seq<Commit>, id: nat, sig: Signature, n: nat, proposed: seq<nat>)
    requires n < |commits|
    ensures Conflicts(Invalidated(commits, id, sig)[n], proposed) <==>
              !(commits[n].cType == T1 && commits[n].u == id) && Conflicts(commits[n], proposed)
  {}

  /**
   So a commit is taken after an invalidation exactly when its endpoints are ordered and the
   scan found, before, nothing but T1 commits of that id and commits already dead.
   */
  lemma RecommitIff(commits: seq<Commit>, id: nat, sig: Signature, c: Commit)
    ensures ApplyOp(ApplyOp(commits, Invalidate(id, sig)), Append(c)) == Invalidated(commits, id, sig) + [c] <==>
              && NonDecreasing(c.indexes)
              && forall n :: 0 <= n < |commits| && ScanFinds(commits[n].indexes, c.indexes) ==>
                   commits[n].cType == T1 && (commits[n].u == id || commits[n].invalidatingSignature != None)
  {
    var after := Invalidated(commits, id, sig);
    forall n | 0 <= n < |commits|
      ensures !Conflicts(after[n], c.indexes) <==>
                (ScanFinds(commits[n].indexes, c.indexes) ==>
                   commits[n].cType == T1 && (commits[n].u == id || commits[n].invalidatingSignature != None))
    {
      InvalidationFrees(commits, id, sig, n, c.indexes);
    }
    assert |after + [c]| != |after|;
  }

  // ----- the history as it is stored and updated

  ghost predicate FirstConflict(commits: seq<Commit>, indexes: seq<nat>, c: Commit) {
    exists n :: && 0 <= n < |commits| && commits[n] == c && Conflicts(c, indexes)
                && forall m :: 0 <= m < n ==> !Conflicts(commits[m], indexes)
  }

  class History {
    const walletAddress: Address
    var commits: seq<Commit>

    constructor (walletAddress: Address)
      ensures this.walletAddress == walletAddress && commits == []
    {
      this.walletAddress := walletAddress;
      commits := [];
    }

    method UpdateInvalidatingSignature(id: nat, sig: Signature)
      modifies this
      ensures commits == Invalidated(old(commits), id, sig)
    {
      var i := 0;
      while i < |commits|
        invariant i <= |commits| == |old(commits)|
        invariant forall k :: 0 <= k < i ==> commits[k] == Invalidated(old(commits), id, sig)[k]
        invariant forall k :: i <= k < |commits| ==> commits[k] == old(commits)[k]
      {
        if commits[i].u == id {
          commits := commits[i := commits[i].(invalidatingSignature := Some(sig))];
        }
        i := i + 1;
      }
    }

    /** The first recorded commit in conflict with the proposed endpoints, if any. */
    method AreIndexesInConflict(indexes: seq<nat>) returns (found: Option<Commit>)
      ensures found.None? <==> forall n :: 0 <= n < |commits| ==> !Conflicts(commits[n], indexes)
      ensures found.Some? ==> FirstConflict(commits, indexes, found.value)
    {
      var n := 0;
      while n < |commits|
        invariant n <= |commits|
        invariant forall m :: 0 <= m < n ==> !Conflicts(commits[m], indexes)
      {
        var c := commits[n];
        if !(c.cType == T1 && c.invalidatingSignature != None) {
          var flag := false;
          var i := 1;
          label outer: while i < |c.indexes|
            invariant i % 2 == 1 && !flag
            invariant forall p: nat, q: nat :: p < i ==> !Meets(c.indexes, p, indexes, q)
          {
            var j := 1;
            while j < |indexes|
              invariant 1 <= j && !flag
              invariant forall q: nat :: q < j ==> !Meets(c.indexes, i, indexes, q)
            {
              if indexes[j] >= c.indexes[i - 1] && indexes[j - 1] <= c.indexes[i] {
                assert Meets(c.indexes, i, indexes, j);
                flag := true;
                break outer;
              }
              j := j + 1;
            }
            i := i + 2;
          }
          if flag {
            return Some(c);
          }
        }
        n := n + 1;
      }
      found := None;
    }

    method AddNewCommits(newCommits: seq<Commit>)
      modifies this
      ensures commits == old(commits) + newCommits
    {
      commits := commits + newCommits;
    }

    /** A commit with ordered endpoints is appended exactly when the scan finds no conflict. */
    method AppendVetted(c: Commit) returns (ok: bool)
      requires NonDecreasing(c.indexes)
      modifies this
      ensures ok <==> Admissible(old(commits), c)
      ensures commits == ApplyOp(old(commits), Append(c))
      ensures LiveDisjoint(old(commits)) ==> LiveDisjoint(commits)
    {
      ghost var before := commits;
      var found := AreIndexesInConflict(c.indexes);
      ok := found.None?;
      if ok {
        AddNewCommits([c]);
      }
      if LiveDisjoint(before) {
        ApplyOpKeepsDisjoint(before, Append(c));
      }
    }
  }

  // ----- the validity check on a received commit

  /** `signer` recovers the address that signed a commit, if it is signed at all. */
  method IsCommitValid(c: Commit, signer: Commit -> Option<Address>, trade: Trade,
                       ownerAddress: Address, selfAddress: Address) returns (valid: bool)
    ensures valid <==>
              && NonDecreasing(c.indexes)
              && c.u == trade.id
              && signer(c) == Some(ownerAddress)
              && c.iAddress == (if trade.isRequester then selfAddress else ownerAddress)
              && IsWaiting(trade.status)
  {
    var i := 1;
    while i < |c.indexes|
      invariant 1 <= i
      invariant forall p, q :: 0 <= p <= q < |c.indexes| && q < i ==> c.indexes[p] <= c.indexes[q]
    {
      if c.indexes[i] < c.indexes[i - 1] {
        return false;
      }
      i := i + 1;
    }
    if c.u != trade.id {
      return false;
    }
    match signer(c) {
      case None => return false;
      case Some(a) =>
        if a != ownerAddress {
          return false;
        }
    }
    if (trade.isRequester && c.iAddress != selfAddress) || (!trade.isRequester && c.iAddress != ownerAddress) {
      return false;
    }
    valid := match trade.status
      case WaitingRT1Commit => true
      case WaitingPT1Commit => true
      case WaitingRT2Commit => true
      case _ => false;
  }
}
