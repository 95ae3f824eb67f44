/** Vocabulary shared by every component: options, words, and sequences read as sets. */
module Common {

  /** An account on chain. */
  type Address = nat

  /** A node of the network. */
  type PeerId = nat

  datatype Option<+T> = None | Some(value: T)

  /** One past the largest value of a 256-bit word. */
  const U256_SIZE: nat := 0x1_0000000000000000_0000000000000000_0000000000000000_0000000000000000

  /** No element occurs twice. */
  ghost predicate Distinct<T(!new)>(s: seq<T>) {
    forall i, j :: 0 <= i < j < |s| ==> s[i] != s[j]
  }

  function Elements<T>(s: seq<T>): set<T> {
    set x | x in s
  }

  lemma ElementsSnoc<T(!new)>(s: seq<T>, x: T)
    ensures Elements(s + [x]) == Elements(s) + {x}
    ensures Distinct(s + [x]) <==> Distinct(s) && x !in Elements(s)
  {
    var t := s + [x];
    assert t[|s|] == x;
    assert forall i :: 0 <= i < |s| ==> t[i] == s[i];
    assert Distinct(t) ==> x !in s;
  }

  /** Distinct means as many elements as positions. */
  lemma {:induction false} DistinctIffFullSize<T(!new)>(s: seq<T>)
    ensures |Elements(s)| <= |s|
    ensures Distinct(s) <==> |Elements(s)| == |s|
  {
    if s != [] {
      var n := |s| - 1;
      DistinctIffFullSize(s[..n]);
      assert s == s[..n] + [s[n]];
      ElementsSnoc(s[..n], s[n]);
    }
  }

  lemma {:induction false} SubsetSize<T>(a: set<T>, b: set<T>)
    requires a <= b
    ensures |a| <= |b|
  {
    if a != {} {
      var x :| x in a;
      SubsetSize(a - {x}, b - {x});
    }
  }

  lemma DisjointSize<T>(a: set<T>, b: set<T>)
    requires a !! b
    ensures |a + b| == |a| + |b|
  {}

  lemma {:induction false} MulMonotone(a: nat, b: nat, c: nat)
    requires a <= b
    ensures a * c <= b * c
  {
    if c > 0 {
      MulMonotone(a, b, c - 1);
    }
  }

  /** Division by repeated subtraction. */
  function Quotient(a: nat, unit: nat): nat
    requires unit > 0
  {
    if a < unit then 0 else Quotient(a - unit, unit) + 1
  }

  /** The bounds that determine it. */
  lemma {:induction false} QuotientBounds(a: nat, unit: nat)
    requires unit > 0
    ensures Quotient(a, unit) * unit <= a < (Quotient(a, unit) + 1) * unit
  {
    if a >= unit {
      QuotientBounds(a - unit, unit);
    }
  }

  lemma {:induction false} QuotientIsUnique(a: nat, q: nat, r: nat, unit: nat)
    requires r < unit && a == q * unit + r
    ensures Quotient(a, unit) == q
    decreases q
  {
    if q > 0 {
      assert a == (q - 1) * unit + r + unit;
      QuotientIsUnique(a - unit, q - 1, r, unit);
    }
  }

  lemma QuotientIsDivision(a: nat, unit: nat)
    requires unit > 0
    ensures Quotient(a, unit) == a / unit
  {
    assert a == a / unit * unit + a % unit;
    QuotientIsUnique(a, a / unit, a % unit, unit);
  }

  /** A slice of a slice, and the middle part of a concatenation. */
  lemma SubSlice<T>(s: seq<T>, start: nat, size: nat, lo: nat, hi: nat)
    requires start + size <= |s| && lo <= hi <= size
    ensures s[start + lo..start + hi] == s[start..start + size][lo..hi]
  {
    var t := s[start..start + size];
    forall k | 0 <= k < hi - lo ensures s[start + lo..start + hi][k] == t[lo..hi][k] {
      assert t[lo..hi][k] == t[lo + k] == s[start + (lo + k)];
    }
  }

  lemma SliceBehind<T>(a: seq<T>, b: seq<T>, lo: nat, hi: nat)
    requires lo <= hi <= |b|
    ensures (a + b)[|a| + lo..|a| + hi] == b[lo..hi]
  {
    assert (a + b)[|a| + lo..|a| + hi] == b[lo..hi];
  }

  lemma Associate<T>(a: seq<T>, b: seq<T>, c: seq<T>)
    ensures a + (b + c) == (a + b) + c
  {}

  lemma Middle<T>(a: seq<T>, b: seq<T>, c: seq<T>)
    ensures (a + b + c)[|a|..|a| + |b|] == b
  {}

  lemma UpdateAfterMerge<K, V>(m: map<K, V>, n: map<K, V>, k: K, v: V)
    ensures m + n[k := v] == (m + n)[k := v]
  {}
}
