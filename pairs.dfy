/** The order in which the comparator visits page pairs: every index pair
    (i, j) with i < j < n, outer index ascending, inner index ascending. */
module PairEnumeration {

  /** A pair of page indices; the comparator only ever emits pairs with first < second. */
  datatype IndexPair = IndexPair(first: nat, second: nat)

  /** Strict lexicographic order on index pairs. */
  predicate LexLess(p: IndexPair, q: IndexPair)
  {
    p.first < q.first || (p.first == q.first && p.second < q.second)
  }

  /** a is an initial segment of b. */
  predicate IsPrefixOf(a: seq<IndexPair>, b: seq<IndexPair>)
  {
    |a| <= |b| && b[..|a|] == a
  }

  /** The pairs (i, k) with i < k < j, in ascending k: the pairs the inner
      loop has emitted for outer index i once it has reached j. */
  function Row(i: nat, j: nat): seq<IndexPair>
  {
    if j <= i + 1 then [] else Row(i, j - 1) + [IndexPair(i, j - 1)]
  }

  /** The pairs whose first index is below i, row by row: what the outer
      loop has emitted once it has reached i. */
  function Prefix(n: nat, i: nat): seq<IndexPair>
  {
    if i == 0 then [] else Prefix(n, i - 1) + Row(i - 1, n)
  }

  /** Every unordered pair of {0, ..., n-1}, in the comparator's order. */
  function AllPairs(n: nat): (r: seq<IndexPair>)
    ensures forall k :: 0 <= k < |r| ==> r[k].first < r[k].second < n
  {
    PrefixBounds(n, n);
    Prefix(n, n)
  }

  /** A row holds pairs (i, k) with i < k < j. */
  lemma {:induction false} RowBounds(i: nat, j: nat)
    ensures forall k :: 0 <= k < |Row(i, j)| ==> Row(i, j)[k].first == i && i < Row(i, j)[k].second < j
  {
    if j > i + 1 {
      RowBounds(i, j - 1);
    }
  }

  /** A prefix holds ascending pairs below n whose first index is below i. */
  lemma {:induction false} PrefixBounds(n: nat, i: nat)
    ensures forall k :: 0 <= k < |Prefix(n, i)| ==>
      Prefix(n, i)[k].first < i && Prefix(n, i)[k].first < Prefix(n, i)[k].second < n
  {
    if i > 0 {
      PrefixBounds(n, i - 1);
      RowBounds(i - 1, n);
    }
  }

  /** The number of pairs in Row(i, j). */
  function RowCount(i: nat, j: nat): nat
  {
    if j <= i + 1 then 0 else j - i - 1
  }

  /** The number of pairs in Prefix(n, i). */
  function PrefixCount(n: nat, i: nat): nat
  {
    if i == 0 then 0 else PrefixCount(n, i - 1) + RowCount(i - 1, n)
  }

  /** Where pair (i, j) sits in AllPairs(n). */
  function PairIndex(n: nat, i: nat, j: nat): nat
    requires i < j < n
  {
    PrefixCount(n, i) + (j - i - 1)
  }

  lemma {:induction false} RowLength(i: nat, j: nat)
    ensures |Row(i, j)| == RowCount(i, j)
  {
    if j > i + 1 {
      RowLength(i, j - 1);
    }
  }

  lemma {:induction false} PrefixCountIsLength(n: nat, i: nat)
    ensures |Prefix(n, i)| == PrefixCount(n, i)
  {
    if i > 0 {
      PrefixCountIsLength(n, i - 1);
      RowLength(i - 1, n);
    }
  }

  lemma {:induction false} RowAt(i: nat, j: nat, k: nat)
    requires i < k < j
    ensures |Row(i, j)| == j - i - 1
    ensures Row(i, j)[k - i - 1] == IndexPair(i, k)
  {
    RowLength(i, j);
    if k < j - 1 {
      RowAt(i, j - 1, k);
    }
  }

  /** The count of emitted pairs only grows, up to the total. */
  lemma {:induction false} PrefixCountGrows(n: nat, i: nat)
    requires i < n
    ensures PrefixCount(n, i) + RowCount(i, n) == PrefixCount(n, i + 1) <= PrefixCount(n, n)
    decreases n - i
  {
    if i + 1 < n {
      PrefixCountGrows(n, i + 1);
    }
  }

  lemma {:induction false} PrefixIsPrefix(n: nat, i: nat, i': nat)
    requires i <= i'
    ensures IsPrefixOf(Prefix(n, i), Prefix(n, i'))
  {
    if i < i' {
      PrefixIsPrefix(n, i, i' - 1);
    }
  }

  /** The algebra of one step of PrefixLength. */
  lemma {:induction false} PrefixLengthStep(n: nat, i: nat)
    requires 1 <= i <= n
    ensures (i - 1) * (2 * n - i) + 2 * (n - i) == i * (2 * n - i - 1)
  {
  }

  /** Twice the number of pairs with first index below i is i * (2n - i - 1). */
  lemma {:induction false} PrefixLength(n: nat, i: nat)
    requires i <= n
    ensures 2 * |Prefix(n, i)| == i * (2 * n - i - 1)
  {
    if i > 0 {
      PrefixLength(n, i - 1);
      RowLength(i - 1, n);
      assert |Prefix(n, i)| == |Prefix(n, i - 1)| + (n - i);
      PrefixLengthStep(n, i);
    }
  }

  /** n pages give n * (n - 1) / 2 pairs. */
  lemma {:induction false} AllPairsCount(n: nat)
    ensures |AllPairs(n)| == PrefixCount(n, n) == n * (n - 1) / 2
  {
    PrefixLength(n, n);
    PrefixCountIsLength(n, n);
  }

  /** Every pair i < j < n is enumerated, at position PairIndex(n, i, j). */
  lemma {:induction false} AllPairsAt(n: nat, i: nat, j: nat)
    requires i < j < n
    ensures PairIndex(n, i, j) < |AllPairs(n)|
    ensures AllPairs(n)[PairIndex(n, i, j)] == IndexPair(i, j)
  {
    RowAt(i, n, j);
    PrefixCountIsLength(n, i);
    assert Prefix(n, i + 1) == Prefix(n, i) + Row(i, n);
    assert Prefix(n, i + 1)[PairIndex(n, i, j)] == IndexPair(i, j);
    PrefixIsPrefix(n, i + 1, n);
  }

  /** Consecutive pairs within a row increase in their second index. */
  lemma {:induction false} RowSorted(i: nat, j: nat)
    ensures forall k, k' :: 0 <= k < k' < |Row(i, j)| ==> Row(i, j)[k].second < Row(i, j)[k'].second
  {
    if j > i + 1 {
      RowSorted(i, j - 1);
      RowBounds(i, j - 1);
    }
  }

  /** The prefix is strictly increasing in lexicographic order. */
  lemma {:induction false} PrefixSorted(n: nat, i: nat)
    ensures forall k, k' :: 0 <= k < k' < |Prefix(n, i)| ==> LexLess(Prefix(n, i)[k], Prefix(n, i)[k'])
  {
    if i > 0 {
      PrefixSorted(n, i - 1);
      PrefixBounds(n, i - 1);
      RowSorted(i - 1, n);
      RowBounds(i - 1, n);
      var a, b := Prefix(n, i - 1), Row(i - 1, n);
      forall k, k' | 0 <= k < k' < |a + b|
        ensures LexLess((a + b)[k], (a + b)[k'])
      {
        if k' < |a| {
          assert (a + b)[k] == a[k] && (a + b)[k'] == a[k'];
        } else if k < |a| {
          assert (a + b)[k] == a[k] && (a + b)[k'] == b[k' - |a|];
        } else {
          assert (a + b)[k] == b[k - |a|] && (a + b)[k'] == b[k' - |a|];
        }
      }
    }
  }

  /** Pairs come out in strictly increasing lexicographic order of (i, j). */
  lemma {:induction false} AllPairsSorted(n: nat)
    ensures forall k, k' :: 0 <= k < k' < |AllPairs(n)| ==> LexLess(AllPairs(n)[k], AllPairs(n)[k'])
  {
    PrefixSorted(n, n);
  }

  /** No pair is emitted twice, nor in both orientations, nor as a self-pair. */
  lemma {:induction false} AllPairsDistinct(n: nat)
    ensures forall k, k' :: 0 <= k < |AllPairs(n)| && 0 <= k' < |AllPairs(n)| && k != k' ==>
      AllPairs(n)[k] != AllPairs(n)[k'] &&
      AllPairs(n)[k] != IndexPair(AllPairs(n)[k'].second, AllPairs(n)[k'].first)
  {
    AllPairsSorted(n);
    var ps := AllPairs(n);
    forall k, k' | 0 <= k < |ps| && 0 <= k' < |ps| && k != k'
      ensures ps[k] != ps[k']
    {
      if k < k' {
        assert LexLess(ps[k], ps[k']);
      } else {
        assert LexLess(ps[k'], ps[k]);
      }
    }
  }

  /** A pair is enumerated exactly when its indices are in range and ascending. */
  lemma {:induction false} AllPairsMembership(n: nat, p: IndexPair)
    ensures p in AllPairs(n) <==> p.first < p.second < n
  {
    if p.first < p.second < n {
      AllPairsAt(n, p.first, p.second);
    }
  }

  /** Three pages are compared in the order (0,1), (0,2), (1,2). */
  lemma {:induction false} ThreePagesOrder()
    ensures AllPairs(3) == [IndexPair(0, 1), IndexPair(0, 2), IndexPair(1, 2)]
  {
    assert Row(0, 3) == [IndexPair(0, 1), IndexPair(0, 2)];
    assert Row(1, 3) == [IndexPair(1, 2)];
    assert Row(2, 3) == [];
  }
}
