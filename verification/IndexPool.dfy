/**
 The pool of wallet indexes behind progressive commitment, also part of the disabled
 design. An index is unused, or backs a commitment of an ongoing procedure, or is spent
 on a T2 commitment of a procedure that has ended.
 */
module IndexPool {
  import opened Common
  import opened Rounds

  datatype Pool = Pool(unused: seq<nat>, ongoing: map<nat, map<nat, Commit>>, spent: map<nat, seq<Commit>>)

  /** Where an index can be. */
  datatype Place = Unused(i: nat) | Ongoing(query: nat, round: nat) | Spent(endedQuery: nat, n: nat)

  function IndexAt(p: Pool, at: Place): Option<nat> {
    match at
    case Unused(i) => if i < |p.unused| then Some(p.unused[i]) else None
    case Ongoing(q, r) => if q in p.ongoing && r in p.ongoing[q] then Some(p.ongoing[q][r].index) else None
    case Spent(q, n) => if q in p.spent && n < |p.spent[q]| then Some(p.spent[q][n].index) else None
  }

  /** Every index of the initial pool is in exactly one place, and no other index is anywhere. */
  ghost predicate Partition(p: Pool, initial: set<nat>) {
    && (forall a, b :: IndexAt(p, a).Some? && IndexAt(p, a) == IndexAt(p, b) ==> a == b)
    && (forall a :: IndexAt(p, a).Some? ==> IndexAt(p, a).value in initial)
    && (forall x :: x in initial ==> exists a :: IndexAt(p, a) == Some(x))
  }

  /** Exactly one index moved, from one place to a free one. */
  ghost predicate Moved(p: Pool, q: Pool, from: Place, to: Place) {
    && from != to
    && IndexAt(p, from).Some? && IndexAt(p, to).None?
    && IndexAt(q, to) == IndexAt(p, from) && IndexAt(q, from).None?
    && forall a :: a != from && a != to ==> IndexAt(q, a) == IndexAt(p, a)
  }

  lemma MoveKeepsPartition(p: Pool, q: Pool, from: Place, to: Place, initial: set<nat>)
    requires Partition(p, initial) && Moved(p, q, from, to)
    ensures Partition(q, initial)
  {
    forall a, b | IndexAt(q, a).Some? && IndexAt(q, a) == IndexAt(q, b) ensures a == b {
      var a', b' := if a == to then from else a, if b == to then from else b;
      assert IndexAt(p, a') == IndexAt(q, a) && IndexAt(p, b') == IndexAt(q, b);
    }
    forall a | IndexAt(q, a).Some? ensures IndexAt(q, a).value in initial {
      var a' := if a == to then from else a;
      assert IndexAt(p, a') == IndexAt(q, a);
    }
    forall x | x in initial ensures exists a :: IndexAt(q, a) == Some(x) {
      var a :| IndexAt(p, a) == Some(x);
      var a' := if a == from then to else a;
      assert IndexAt(q, a') == Some(x);
    }
  }

  /** The same indexes in the same places. */
  lemma SamePlaces(p: Pool, q: Pool, initial: set<nat>)
    requires Partition(p, initial) && forall a :: IndexAt(q, a) == IndexAt(p, a)
    ensures Partition(q, initial)
  {
    forall x | x in initial ensures exists a :: IndexAt(q, a) == Some(x) {
      var a :| IndexAt(p, a) == Some(x);
      assert IndexAt(q, a) == Some(x);
    }
  }

  // ----- the operations

  /** A procedure begins, with no commitment; an ongoing one of the same query is replaced. */
  function StartProcedure(p: Pool, query: nat): Pool {
    p.(ongoing := p.ongoing[query := map[]])
  }

  /** The last unused index backs the round's commitment, unless the round has one. */
  function CommitRound(p: Pool, query: nat, round: nat, c: Commit): Pool {
    if query !in p.ongoing || round in p.ongoing[query] || p.unused == [] then p
    else
      var n := |p.unused| - 1;
      var commits: map<nat, Commit> := p.ongoing[query][round := c.(index := p.unused[n])];
      p.(unused := p.unused[..n], ongoing := p.ongoing[query := commits])
  }

  /** One commitment of an ending procedure: T1 indexes are free again, T2 are spent. */
  function ReleaseOne(p: Pool, query: nat, round: nat): Pool
    requires query in p.ongoing && round in p.ongoing[query] && query in p.spent
  {
    var c := p.ongoing[query][round];
    var rest := p.(ongoing := p.ongoing[query := p.ongoing[query] - {round}]);
    if c.cType == T1 then rest.(unused := p.unused + [c.index])
    else rest.(spent := p.spent[query := p.spent[query] + [c]])
  }

  function ReleaseAll(p: Pool, query: nat, order: seq<nat>): Pool
    requires query in p.ongoing && query in p.spent
    requires forall i :: 0 <= i < |order| ==> order[i] in p.ongoing[query]
    requires forall i, j :: 0 <= i < j < |order| ==> order[i] != order[j]
    decreases |order|
  {
    if order == [] then p else ReleaseAll(ReleaseOne(p, query, order[0]), query, order[1..])
  }

  /** The order in which a map's values are listed: any, each round once. */
  ghost predicate Lists(order: seq<nat>, commits: map<nat, Commit>) {
    Distinct(order) && Elements(order) == commits.Keys
  }

  /** A procedure ends: its list of spent commitments replaces any of the same query. */
  ghost function EndProcedure(p: Pool, query: nat, order: seq<nat>): Pool
    requires query in p.ongoing && Lists(order, p.ongoing[query])
  {
    var released := ReleaseAll(p.(spent := p.spent[query := []]), query, order);
    released.(ongoing := released.ongoing - {query})
  }

  // ----- conservation

  lemma CommitKeepsPartition(p: Pool, query: nat, round: nat, c: Commit, initial: set<nat>)
    requires Partition(p, initial)
    ensures Partition(CommitRound(p, query, round, c), initial)
  {
    var q := CommitRound(p, query, round, c);
    if q != p {
      MoveKeepsPartition(p, q, Unused(|p.unused| - 1), Ongoing(query, round), initial);
    }
  }

  lemma ReleaseOneKeepsPartition(p: Pool, query: nat, round: nat, initial: set<nat>)
    requires query in p.ongoing && round in p.ongoing[query] && query in p.spent
    requires Partition(p, initial)
    ensures Partition(ReleaseOne(p, query, round), initial)
  {
    var to := if p.ongoing[query][round].cType == T1 then Unused(|p.unused|) else Spent(query, |p.spent[query]|);
    MoveKeepsPartition(p, ReleaseOne(p, query, round), Ongoing(query, round), to, initial);
  }

  lemma {:induction false} ReleaseAllKeepsPartition(p: Pool, query: nat, order: seq<nat>, initial: set<nat>)
    requires query in p.ongoing && query in p.spent
    requires forall i :: 0 <= i < |order| ==> order[i] in p.ongoing[query]
    requires forall i, j :: 0 <= i < j < |order| ==> order[i] != order[j]
    requires Partition(p, initial)
    ensures var q := ReleaseAll(p, query, order);
            && Partition(q, initial)
            && query in q.ongoing
            && q.ongoing[query].Keys == p.ongoing[query].Keys - Elements(order)
    decreases |order|
  {
    if order != [] {
      ReleaseOneKeepsPartition(p, query, order[0], initial);
      ReleaseAllKeepsPartition(ReleaseOne(p, query, order[0]), query, order[1..], initial);
      assert Elements(order) == {order[0]} + Elements(order[1..]);
    }
  }

  /** Starting keeps the partition exactly when it replaces no commitment. */
  lemma StartKeepsPartitionIff(p: Pool, query: nat, initial: set<nat>)
    requires Partition(p, initial)
    ensures Partition(StartProcedure(p, query), initial) <==> query !in p.ongoing || p.ongoing[query] == map[]
  {
    var q := StartProcedure(p, query);
    if query !in p.ongoing || p.ongoing[query] == map[] {
      SamePlaces(p, q, initial);
    } else {
      var round :| round in p.ongoing[query];
      LostIndex(p, q, Ongoing(query, round), initial);
    }
  }

  /** An index taken from its place and put nowhere is lost. */
  lemma LostIndex(p: Pool, q: Pool, at: Place, initial: set<nat>)
    requires Partition(p, initial) && IndexAt(p, at).Some? && IndexAt(q, at).None?
    requires forall a :: IndexAt(q, a) == IndexAt(p, a) || IndexAt(q, a).None?
    ensures !Partition(q, initial)
  {
    var x := IndexAt(p, at).value;
    forall a ensures IndexAt(q, a) != Some(x) {
      assert IndexAt(q, a) == Some(x) ==> IndexAt(p, a) == IndexAt(p, at);
    }
  }

  function SpentIndexes(p: Pool, query: nat): set<nat> {
    if query in p.spent then set c | c in p.spent[query] :: c.index else {}
  }

  /** Dropping a query's record of spent commitments drops their indexes. */
  lemma ClearedPartition(p: Pool, query: nat, initial: set<nat>)
    requires Partition(p, initial)
    ensures Partition(p.(spent := p.spent[query := []]), initial - SpentIndexes(p, query))
  {
    var q := p.(spent := p.spent[query := []]);
    var lost := SpentIndexes(p, query);
    forall a ensures IndexAt(q, a) == if a.Spent? && a.endedQuery == query then None else IndexAt(p, a) {}
    if query in p.spent {
      forall n | 0 <= n < |p.spent[query]|
        ensures p.spent[query][n].index in lost && IndexAt(p, Spent(query, n)) == Some(p.spent[query][n].index)
      {
        assert p.spent[query][n] in p.spent[query];
      }
    }
    forall a | IndexAt(q, a).Some? ensures IndexAt(q, a).value in initial - lost {
      assert IndexAt(p, a) == IndexAt(q, a);
    }
    forall x | x in initial - lost ensures exists a :: IndexAt(q, a) == Some(x) {
      var a :| IndexAt(p, a) == Some(x);
      assert IndexAt(q, a) == Some(x);
    }
  }

  lemma PartitionIsUnique(p: Pool, a: set<nat>, b: set<nat>)
    requires Partition(p, a) && Partition(p, b)
    ensures a == b
  {
    forall x | x in a ensures x in b {
      var at :| IndexAt(p, at) == Some(x);
    }
    forall x | x in b ensures x in a {
      var at :| IndexAt(p, at) == Some(x);
    }
  }

  lemma EndPartition(p: Pool, query: nat, order: seq<nat>, initial: set<nat>)
    requires query in p.ongoing && Lists(order, p.ongoing[query])
    requires Partition(p, initial)
    ensures Partition(EndProcedure(p, query, order), initial - SpentIndexes(p, query))
  {
    var cleared := p.(spent := p.spent[query := []]);
    var kept := initial - SpentIndexes(p, query);
    ClearedPartition(p, query, initial);
    forall i | 0 <= i < |order| ensures order[i] in p.ongoing[query] {
      assert order[i] in Elements(order);
    }
    ReleaseAllKeepsPartition(cleared, query, order, kept);
    SamePlaces(ReleaseAll(cleared, query, order), EndProcedure(p, query, order), kept);
  }

  /** Ending keeps the partition exactly when it replaces no record of spent commitments. */
  lemma EndKeepsPartitionIff(p: Pool, query: nat, order: seq<nat>, initial: set<nat>)
    requires query in p.ongoing && Lists(order, p.ongoing[query])
    requires Partition(p, initial)
    ensures Partition(EndProcedure(p, query, order), initial) <==> query !in p.spent || p.spent[query] == []
  {
    var kept := initial - SpentIndexes(p, query);
    EndPartition(p, query, order, initial);
    if query in p.spent && p.spent[query] != [] {
      var c := p.spent[query][0];
      assert c in p.spent[query] && c.index in SpentIndexes(p, query);
      assert IndexAt(p, Spent(query, 0)) == Some(c.index);
      assert c.index in initial && c.index !in kept;
      if Partition(EndProcedure(p, query, order), initial) {
        PartitionIsUnique(EndProcedure(p, query, order), initial, kept);
      }
    } else {
      assert kept == initial;
    }
  }

  // ----- runs

  datatype PoolOp =
    | StartOp(query: nat)
    | CommitOp(committing: nat, round: nat, commit: Commit)
    | EndOp(ending: nat, order: seq<nat>)

  /** Query ids are not reused while a record of them is kept. */
  ghost predicate FreshIds(p: Pool, op: PoolOp) {
    match op
    case StartOp(query) => query !in p.ongoing
    case CommitOp(_, _, _) => true
    case EndOp(query, order) => query in p.ongoing && Lists(order, p.ongoing[query]) && query !in p.spent
  }

  ghost function PoolApply(p: Pool, op: PoolOp): Pool
    requires FreshIds(p, op)
  {
    match op
    case StartOp(query) => StartProcedure(p, query)
    case CommitOp(query, round, c) => CommitRound(p, query, round, c)
    case EndOp(query, order) => EndProcedure(p, query, order)
  }

  ghost predicate PoolRun(p: Pool, ops: seq<PoolOp>, q: Pool)
    decreases |ops|
  {
    if ops == [] then p == q else FreshIds(p, ops[0]) && PoolRun(PoolApply(p, ops[0]), ops[1..], q)
  }

  predicate Backing(p: Pool, query: nat, round: nat) {
    query in p.ongoing && round in p.ongoing[query]
  }

  /**
   In every run with unreused query ids the unused indexes, the indexes of ongoing
   commitments and the spent ones partition the initial pool; so no index ever backs
   two commitments.
   */
  lemma {:induction false} PoolIsConserved(p: Pool, ops: seq<PoolOp>, q: Pool, initial: set<nat>)
    requires Partition(p, initial) && PoolRun(p, ops, q)
    ensures Partition(q, initial)
    ensures forall a, b, i, j ::
              (Backing(q, a, i) && Backing(q, b, j) && q.ongoing[a][i].index == q.ongoing[b][j].index) ==> a == b && i == j
    decreases |ops|
  {
    if ops == [] {
      forall a, b, i, j | Backing(q, a, i) && Backing(q, b, j) && q.ongoing[a][i].index == q.ongoing[b][j].index
        ensures a == b && i == j
      {
        assert IndexAt(q, Ongoing(a, i)) == IndexAt(q, Ongoing(b, j));
      }
    } else {
      match ops[0] {
        case StartOp(query) => StartKeepsPartitionIff(p, query, initial);
        case CommitOp(query, round, c) => CommitKeepsPartition(p, query, round, c, initial);
        case EndOp(query, order) => EndKeepsPartitionIff(p, query, order, initial);
      }
      PoolIsConserved(PoolApply(p, ops[0]), ops[1..], q, initial);
    }
  }

  /** The pool starts with the indexes 1 to 99, unused. */
  lemma InitialPool(p: Pool)
    requires p == Pool(seq(99, i => i + 1), map[], map[])
    ensures Partition(p, set x | 1 <= x < 100 && Under(x, 100))
  {
    forall a | IndexAt(p, a).Some? ensures 1 <= IndexAt(p, a).value < 100 && Under(IndexAt(p, a).value, 100) {
      assert a.Unused?;
    }
    forall x | 1 <= x < 100 ensures exists a :: IndexAt(p, a) == Some(x) {
      assert IndexAt(p, Unused(x - 1)) == Some(x);
    }
  }

  // ----- the store as it is updated

  function T1Indexes(commits: seq<Commit>): seq<nat> {
    if commits == [] then []
    else if commits[0].cType == T1 then [commits[0].index] + T1Indexes(commits[1..])
    else T1Indexes(commits[1..])
  }

  function T2Commits(commits: seq<Commit>): seq<Commit> {
    if commits == [] then []
    else if commits[0].cType == T1 then T2Commits(commits[1..])
    else [commits[0]] + T2Commits(commits[1..])
  }

  function Listed(commits: map<nat, Commit>, order: seq<nat>): seq<Commit>
    requires forall i :: 0 <= i < |order| ==> order[i] in commits
  {
    seq(|order|, i requires 0 <= i < |order| => commits[order[i]])
  }

  /** Releasing one by one frees the T1 indexes and keeps the T2 commitments, in order. */
  lemma {:induction false} ReleaseAllIsSorting(p: Pool, query: nat, order: seq<nat>)
    requires query in p.ongoing && query in p.spent
    requires forall i :: 0 <= i < |order| ==> order[i] in p.ongoing[query]
    requires forall i, j :: 0 <= i < j < |order| ==> order[i] != order[j]
    ensures var q, commits := ReleaseAll(p, query, order), Listed(p.ongoing[query], order);
            && q.unused == p.unused + T1Indexes(commits)
            && q.spent == p.spent[query := p.spent[query] + T2Commits(commits)]
    decreases |order|
  {
    if order != [] {
      var q := ReleaseOne(p, query, order[0]);
      var commits := Listed(p.ongoing[query], order);
      var rest := commits[1..];
      ReleaseAllIsSorting(q, query, order[1..]);
      assert Listed(q.ongoing[query], order[1..]) == rest;
      if commits[0].cType == T1 {
        assert p.unused + T1Indexes(commits) == q.unused + T1Indexes(rest);
      } else {
        assert p.spent[query] + T2Commits(commits) == q.spent[query] + T2Commits(rest);
      }
    } else {
      assert p.spent[query] + [] == p.spent[query];
    }
  }

  lemma {:induction false} SortedByType(commits: seq<Commit>, c: Commit)
    requires c in commits
    ensures c.cType == T1 ==> c.index in T1Indexes(commits)
    ensures c.cType == T2 ==> c in T2Commits(commits)
  {
    if c != commits[0] {
      SortedByType(commits[1..], c);
    }
  }

  /** An ended procedure's T1 indexes can be drawn again, its T2 commitments are spent. */
  lemma EndFreesAndSpends(p: Pool, query: nat, order: seq<nat>, round: nat)
    requires query in p.ongoing && Lists(order, p.ongoing[query]) && round in p.ongoing[query]
    ensures var q, c := EndProcedure(p, query, order), p.ongoing[query][round];
            && query !in q.ongoing && query in q.spent
            && (c.cType == T1 ==> c.index in q.unused)
            && (c.cType == T2 ==> c in q.spent[query])
  {
    var cleared := p.(spent := p.spent[query := []]);
    assert round in Elements(order);
    var i :| 0 <= i < |order| && order[i] == round;
    forall k | 0 <= k < |order| ensures order[k] in p.ongoing[query] {
      assert order[k] in Elements(order);
    }
    ReleaseAllIsSorting(cleared, query, order);
    var commits := Listed(p.ongoing[query], order);
    assert commits[i] == p.ongoing[query][round];
    SortedByType(commits, p.ongoing[query][round]);
  }

  class Commitments {
    var unusedIndexes: seq<nat>
    var type2SpentCommits: map<nat, seq<Commit>>

    constructor ()
      ensures unusedIndexes == seq(99, i => i + 1) && type2SpentCommits == map[]
    {
      unusedIndexes := [];
      type2SpentCommits := map[];
      new;
      for v := 1 to 100
        invariant unusedIndexes == seq(v - 1, i => i + 1) && type2SpentCommits == map[]
      {
        unusedIndexes := unusedIndexes + [v];
      }
    }

    /** The last unused index, taken out of the pool. */
    method FindIndex() returns (index: Option<nat>)
      modifies this`unusedIndexes
      ensures old(unusedIndexes) == [] ==> index == None && unusedIndexes == []
      ensures old(unusedIndexes) != [] ==>
                index.Some? && old(unusedIndexes) == unusedIndexes + [index.value]
    {
      if unusedIndexes == [] {
        return None;
      }
      var n := |unusedIndexes| - 1;
      index := Some(unusedIndexes[n]);
      unusedIndexes := unusedIndexes[..n];
    }

    /** The commitments an ended procedure had sent, in the order they are listed. */
    method CollectSent(query: nat, commits: seq<Commit>)
      modifies this
      ensures unusedIndexes == old(unusedIndexes) + T1Indexes(commits)
      ensures type2SpentCommits == old(type2SpentCommits)[query := T2Commits(commits)]
    {
      var t2Spent: seq<Commit> := [];
      var i := 0;
      assert commits[0..] == commits;
      while i < |commits|
        invariant i <= |commits|
        invariant unusedIndexes + T1Indexes(commits[i..]) == old(unusedIndexes) + T1Indexes(commits)
        invariant t2Spent + T2Commits(commits[i..]) == T2Commits(commits)
        invariant type2SpentCommits == old(type2SpentCommits)
      {
        assert commits[i..][1..] == commits[i + 1..];
        if commits[i].cType == T1 {
          unusedIndexes := unusedIndexes + [commits[i].index];
        } else {
          t2Spent := t2Spent + [commits[i]];
        }
        i := i + 1;
      }
      assert commits[i..] == [];
      assert unusedIndexes + [] == unusedIndexes && t2Spent + [] == t2Spent;
      type2SpentCommits := type2SpentCommits[query := t2Spent];
    }
  }
}
