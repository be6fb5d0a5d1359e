/** The combinatorial number system used to address the hand-ranking table
    (py/genset.py, hand_to_index), together with the objects it is proved
    against: binomial coefficients, sorting, the lexicographic enumeration of
    k-combinations that itertools.combinations produces, and the inverse map
    from an index back to its combination. */
module Combinatorics {

  /** Python's math.comb(n, k), by Pascal's rule: the number of k-subsets of an n-set,
      which is 0 exactly when k > n. */
  function Choose(n: nat, k: nat): (c: nat)
    ensures c == 0 <==> n < k
  {
    if k == 0 then 1 else if n == 0 then 0 else Choose(n - 1, k - 1) + Choose(n - 1, k)
  }

  /** Choose is monotone in its first argument. */
  lemma {:induction false} ChooseMonotone(m: nat, n: nat, k: nat)
    requires m <= n
    ensures Choose(m, k) <= Choose(n, k)
    decreases n - m
  {
    if m < n {
      ChooseMonotone(m, n - 1, k);
    }
  }

  /** Absorption identity k * C(n, k) == n * C(n - 1, k - 1). */
  lemma {:induction false} ChooseAbsorption(n: nat, k: nat)
    requires 1 <= k && 1 <= n
    ensures k * Choose(n, k) == n * Choose(n - 1, k - 1)
  {
    if n == 1 {
      if k == 1 {
      } else {
        assert Choose(1, k) == 0 && Choose(0, k - 1) == 0;
      }
    } else if k == 1 {
      ChooseRowOne(n);
    } else {
      // Pascal on both sides, then the identity one row up
      var a, b := Choose(n - 1, k - 1), Choose(n - 1, k);
      var c, d := Choose(n - 2, k - 2), Choose(n - 2, k - 1);
      assert Choose(n, k) == a + b;
      assert a == c + d;
      ChooseAbsorption(n - 1, k - 1);
      assert (k - 1) * a == (n - 1) * c;
      ChooseAbsorption(n - 1, k);
      assert k * b == (n - 1) * d;
      AbsorptionStep(n, k, a, b, c, d);
    }
  }

  lemma AbsorptionStep(n: int, k: int, a: int, b: int, c: int, d: int)
    requires a == c + d && (k - 1) * a == (n - 1) * c && k * b == (n - 1) * d
    ensures k * (a + b) == n * a
  {
    calc {
      k * (a + b);
      (k - 1) * a + a + k * b;
      (n - 1) * c + a + (n - 1) * d;
      (n - 1) * (c + d) + a;
      n * a;
    }
  }

  lemma {:induction false} ChooseRowOne(n: nat)
    ensures Choose(n, 1) == n
  {
    if n > 0 {
      ChooseRowOne(n - 1);
    }
  }

  /** The number of 5-card hands from a 52-card deck, the size the table must have. */
  const HandCount: nat := 2598960

  lemma ChooseFiftyTwoFive()
    ensures Choose(52, 5) == HandCount
  {
    ChooseRowOne(48);
    ChooseAbsorption(49, 2);
    ChooseAbsorption(50, 3);
    ChooseAbsorption(51, 4);
    ChooseAbsorption(52, 5);
  }

  // ---------------------------------------------------------------------------
  // Sorting (Python's sorted on a list of card ids)

  predicate Ascending(s: seq<nat>)
  {
    forall i, j :: 0 <= i < j < |s| ==> s[i] <= s[j]
  }

  /** Every element is larger than the one before it. Written over the last two
      elements so that its meaning unfolds one step at a time; IncreasingPairs gives
      the pairwise form. */
  predicate StrictlyIncreasing(s: seq<nat>)
    decreases |s|
  {
    |s| < 2 || (StrictlyIncreasing(s[..|s| - 1]) && s[|s| - 2] < s[|s| - 1])
  }

  /** A sequence is strictly increasing exactly when every earlier element is smaller
      than every later one. */
  lemma {:induction false} IncreasingPairs(s: seq<nat>)
    ensures StrictlyIncreasing(s) <==> forall i, j :: 0 <= i < j < |s| ==> s[i] < s[j]
    decreases |s|
  {
    if |s| >= 2 {
      var p := s[..|s| - 1];
      IncreasingPairs(p);
      assert forall i :: 0 <= i < |p| ==> p[i] == s[i];
    }
  }

  predicate AllBelow(s: seq<nat>, n: nat)
  {
    forall i :: 0 <= i < |s| ==> s[i] < n
  }

  function Insert(x: nat, s: seq<nat>): (r: seq<nat>)
    requires Ascending(s)
    ensures Ascending(r)
    ensures multiset(r) == multiset(s) + multiset{x}
    ensures |r| == |s| + 1 && (r[0] == x || (s != [] && r[0] == s[0]))
  {
    if s == [] || x <= s[0] then
      ConsAscending(x, s);
      [x] + s
    else
      assert s == [s[0]] + s[1..];
      var t := Insert(x, s[1..]);
      ConsAscending(s[0], t);
      assert multiset([s[0]] + t) == multiset{s[0]} + multiset(t);
      [s[0]] + t
  }

  /** An element no greater than the head of an ascending sequence can go in front. */
  lemma ConsAscending(a: nat, t: seq<nat>)
    requires Ascending(t) && (t == [] || a <= t[0])
    ensures Ascending([a] + t)
  {
    var s := [a] + t;
    forall i, j | 0 <= i < j < |s| ensures s[i] <= s[j] {
      if i > 0 { assert s[i] == t[i - 1] && s[j] == t[j - 1]; } else { assert s[j] == t[j - 1]; }
    }
  }

  /** Insertion sort: the ascending permutation of its input. Since that
      permutation is unique (SortedUnique), this is the value Python's sorted returns. */
  function Sort(s: seq<nat>): (r: seq<nat>)
    ensures Ascending(r)
    ensures multiset(r) == multiset(s)
  {
    if s == [] then []
    else
      assert s == [s[0]] + s[1..];
      Insert(s[0], Sort(s[1..]))
  }

  lemma HeadIsLeast(a: seq<nat>, x: nat)
    requires Ascending(a) && x in multiset(a)
    ensures a != [] && a[0] <= x
  {
    var i :| 0 <= i < |a| && a[i] == x;
  }

  /** Two ascending sequences with the same elements are equal. */
  lemma {:induction false} SortedUnique(a: seq<nat>, b: seq<nat>)
    requires Ascending(a) && Ascending(b)
    requires multiset(a) == multiset(b)
    ensures a == b
  {
    if a == [] {
      assert |b| == |multiset(b)|;
    } else {
      assert a[0] in multiset(a);
      HeadIsLeast(b, a[0]);
      assert b[0] in multiset(b);
      HeadIsLeast(a, b[0]);
      assert a == [a[0]] + a[1..];
      assert b == [b[0]] + b[1..];
      assert multiset(a) == multiset{a[0]} + multiset(a[1..]);
      assert multiset(b) == multiset{b[0]} + multiset(b[1..]);
      assert a[0] == b[0];
      assert multiset(a[1..]) == multiset(a) - multiset{a[0]};
      assert multiset(b[1..]) == multiset(b) - multiset{b[0]};
      SortedUnique(a[1..], b[1..]);
    }
  }

  lemma SortOfSorted(s: seq<nat>)
    requires Ascending(s)
    ensures Sort(s) == s
  {
    SortedUnique(Sort(s), s);
  }

  lemma StrictlyIncreasingIsAscending(s: seq<nat>)
    requires StrictlyIncreasing(s)
    ensures Ascending(s)
  {
    IncreasingPairs(s);
  }

  // ---------------------------------------------------------------------------
  // The combinatorial number system

  /** Sum of C(s[i], i + 1) over the positions of s, added from the last position
      down as py/genset.py:58 does. A strictly increasing k-sequence with largest
      element c gets an index in [C(c, k), C(c + 1, k)): combinations are ordered by
      their largest element first. */
  function CombIndex(s: seq<nat>): (idx: nat)
    ensures s != [] ==> Choose(s[|s| - 1], |s|) <= idx
    ensures s != [] && StrictlyIncreasing(s) ==> idx < Choose(s[|s| - 1] + 1, |s|)
  {
    if s == [] then 0
    else
      var k, c := |s|, s[|s| - 1];
      var p := s[..k - 1];
      assert StrictlyIncreasing(s) ==> CombIndex(p) < Choose(c, k - 1) by {
        if StrictlyIncreasing(s) && p != [] {
          assert StrictlyIncreasing(p) && p[|p| - 1] < c;
          ChooseMonotone(p[|p| - 1] + 1, c, k - 1);
        }
      }
      CombIndex(p) + Choose(c, k)
  }

  /** hand_to_index: sort the card ids, then take the combinatorial index. On a list
      that is already ascending the sort changes nothing, and the index is the plain
      sum over the list as given. */
  function HandToIndex(x: seq<nat>): (i: nat)
    ensures Ascending(x) ==> i == CombIndex(x)
  {
    assert Ascending(x) ==> Sort(x) == x by {
      if Ascending(x) { SortOfSorted(x); }
    }
    CombIndex(Sort(x))
  }

  /** On a strictly increasing list hand_to_index is the plain index. */
  lemma IncreasingIndex(s: seq<nat>)
    requires StrictlyIncreasing(s)
    ensures HandToIndex(s) == CombIndex(s)
  {
    StrictlyIncreasingIsAscending(s);
  }

  /** The index does not depend on the order the cards are given in. */
  lemma HandToIndexOrderFree(x: seq<nat>, y: seq<nat>)
    requires multiset(x) == multiset(y)
    ensures HandToIndex(x) == HandToIndex(y)
  {
    SortedUnique(Sort(x), Sort(y));
  }

  lemma PrefixStrictlyIncreasing(s: seq<nat>)
    requires StrictlyIncreasing(s) && s != []
    ensures StrictlyIncreasing(s[..|s| - 1])
    ensures AllBelow(s[..|s| - 1], s[|s| - 1])
  {
  }

  /** A strictly increasing k-sequence below n has index below C(n, k). */
  lemma {:induction false} CombIndexBelow(s: seq<nat>, n: nat)
    requires StrictlyIncreasing(s) && AllBelow(s, n)
    ensures CombIndex(s) < Choose(n, |s|)
  {
    if s != [] {
      ChooseMonotone(s[|s| - 1] + 1, n, |s|);
    }
  }

  /** A combination whose largest element is below another's has the smaller index. */
  lemma LowerTopSmallerIndex(s: seq<nat>, t: seq<nat>)
    requires StrictlyIncreasing(s) && StrictlyIncreasing(t) && |s| == |t| > 0
    requires s[|s| - 1] < t[|t| - 1]
    ensures CombIndex(s) < CombIndex(t)
  {
    var k := |s|;
    ChooseMonotone(s[k - 1] + 1, t[k - 1], k);
  }

  /** Sequences that agree on everything but the last element, and on that, are equal. */
  lemma SameLast(s: seq<nat>, t: seq<nat>)
    requires |s| == |t| > 0 && s[..|s| - 1] == t[..|t| - 1] && s[|s| - 1] == t[|t| - 1]
    ensures s == t
  {
    assert s == s[..|s| - 1] + [s[|s| - 1]];
    assert t == t[..|t| - 1] + [t[|t| - 1]];
  }

  /** Distinct combinations of the same size have distinct indices. */
  lemma {:induction false} CombIndexInjective(s: seq<nat>, t: seq<nat>)
    requires StrictlyIncreasing(s) && StrictlyIncreasing(t) && |s| == |t|
    requires CombIndex(s) == CombIndex(t)
    ensures s == t
  {
    if s != [] {
      var k := |s|;
      if s[k - 1] < t[k - 1] {
        LowerTopSmallerIndex(s, t);
      } else if t[k - 1] < s[k - 1] {
        LowerTopSmallerIndex(t, s);
      }
      var ps, pt := s[..k - 1], t[..k - 1];
      assert s[k - 1] == t[k - 1];
      assert CombIndex(ps) == CombIndex(pt);
      PrefixStrictlyIncreasing(s);
      PrefixStrictlyIncreasing(t);
      CombIndexInjective(ps, pt);
      SameLast(s, t);
    }
  }

  /** The largest c' <= c with C(c', k) <= m (or 0). */
  function Top(m: nat, k: nat, c: nat): (r: nat)
    ensures r <= c
    ensures r == 0 || Choose(r, k) <= m
    ensures forall c' :: r < c' <= c ==> m < Choose(c', k)
  {
    if c == 0 || Choose(c, k) <= m then c else Top(m, k, c - 1)
  }

  /** Inverse of the combinatorial index: the k-combination of 0..n-1 whose index is m. */
  function Unrank(m: nat, k: nat, n: nat): (s: seq<nat>)
    requires m < Choose(n, k)
    ensures |s| == k && StrictlyIncreasing(s) && AllBelow(s, n)
    ensures CombIndex(s) == m
    decreases k
  {
    if k == 0 then []
    else
      var c := Top(m, k, n - 1);
      TopSplits(m, k, n);
      var p := Unrank(m - Choose(c, k), k - 1, c);
      AppendTop(p, c, n);
      p + [c]
  }

  /** The top element c of the combination with index m: C(c, k) <= m, and the rest of
      the index is that of a (k-1)-combination of 0..c-1. */
  lemma TopSplits(m: nat, k: nat, n: nat)
    requires k > 0 && m < Choose(n, k)
    ensures Top(m, k, n - 1) < n
    ensures Choose(Top(m, k, n - 1), k) <= m < Choose(Top(m, k, n - 1), k) + Choose(Top(m, k, n - 1), k - 1)
  {
    var c := Top(m, k, n - 1);
    assert Choose(c, k) <= m by {
      if c == 0 { assert Choose(0, k) == 0; }
    }
    assert m < Choose(c + 1, k);
    assert Choose(c + 1, k) == Choose(c, k - 1) + Choose(c, k);
  }

  /** Appending an element c < n above a strictly increasing sequence keeps it strictly
      increasing and below n, and adds C(c, k) to its index. */
  lemma AppendTop(p: seq<nat>, c: nat, n: nat)
    requires StrictlyIncreasing(p) && AllBelow(p, c) && c < n
    ensures |p + [c]| == |p| + 1 && StrictlyIncreasing(p + [c]) && AllBelow(p + [c], n)
    ensures CombIndex(p + [c]) == CombIndex(p) + Choose(c, |p| + 1)
  {
    assert (p + [c])[..|p|] == p;
  }

  /** Unrank gives a k-combination of 0..n-1. */
  lemma UnrankIsCombination(m: nat, k: nat, n: nat)
    requires m < Choose(n, k)
    ensures IsCombination(Unrank(m, k, n), 0, n, k)
  {
    var s := Unrank(m, k, n);
    assert AllBelow(s, n);
  }

  /** Index then unrank gives the combination back. */
  lemma UnrankCombIndex(s: seq<nat>, n: nat)
    requires StrictlyIncreasing(s) && AllBelow(s, n)
    ensures CombIndex(s) < Choose(n, |s|)
    ensures Unrank(CombIndex(s), |s|, n) == s
  {
    CombIndexBelow(s, n);
    CombIndexInjective(Unrank(CombIndex(s), |s|, n), s);
  }

  // ---------------------------------------------------------------------------
  // itertools.combinations(range(lo, n), k), in its lexicographic order

  function Prepend(x: nat, cs: seq<seq<nat>>): (r: seq<seq<nat>>)
  {
    seq(|cs|, i requires 0 <= i < |cs| => [x] + cs[i])
  }

  /** itertools.combinations(range(lo, n), k): C(n - lo, k) tuples. */
  function Combinations(lo: nat, n: nat, k: nat): (cs: seq<seq<nat>>)
    ensures lo <= n ==> |cs| == Choose(n - lo, k)
    decreases n - lo
  {
    if k == 0 then [[]]
    else if n <= lo then []
    else Prepend(lo, Combinations(lo + 1, n, k - 1)) + Combinations(lo + 1, n, k)
  }

  predicate IsCombination(s: seq<nat>, lo: nat, n: nat, k: nat)
  {
    |s| == k && StrictlyIncreasing(s) && forall i :: 0 <= i < |s| ==> lo <= s[i] < n
  }

  /** Everything enumerated is a k-combination of lo..n-1. */
  lemma {:induction false} CombinationsSound(lo: nat, n: nat, k: nat)
    ensures forall s :: s in Combinations(lo, n, k) ==> IsCombination(s, lo, n, k)
    decreases n - lo
  {
    if k != 0 && lo < n {
      CombinationsSound(lo + 1, n, k - 1);
      CombinationsSound(lo + 1, n, k);
      var cs := Combinations(lo + 1, n, k - 1);
      forall s | s in Prepend(lo, cs) ensures IsCombination(s, lo, n, k) {
        var i :| 0 <= i < |cs| && Prepend(lo, cs)[i] == s;
        assert s == [lo] + cs[i];
        assert IsCombination(cs[i], lo + 1, n, k - 1);
        IncreasingPairs(cs[i]);
        IncreasingPairs(s);
      }
    }
  }

  /** Every k-combination of lo..n-1 is enumerated. */
  lemma {:induction false} CombinationsComplete(s: seq<nat>, lo: nat, n: nat, k: nat)
    requires IsCombination(s, lo, n, k)
    ensures s in Combinations(lo, n, k)
    decreases n - lo
  {
    if k == 0 {
      assert s == [];
    } else {
      IncreasingPairs(s);
      IncreasingPairs(s[1..]);
      assert lo <= s[0] < n;
      if s[0] == lo {
        var cs := Combinations(lo + 1, n, k - 1);
        assert IsCombination(s[1..], lo + 1, n, k - 1) by {
          forall i | 0 <= i < |s[1..]| ensures lo + 1 <= s[1..][i] {
            assert s[0] < s[i + 1];
          }
        }
        CombinationsComplete(s[1..], lo + 1, n, k - 1);
        HeadChosen(s, lo, n, k);
      } else {
        assert IsCombination(s, lo + 1, n, k) by {
          forall i | 0 <= i < |s| ensures lo + 1 <= s[i] {
            if i > 0 { assert s[0] < s[i]; }
          }
        }
        CombinationsComplete(s, lo + 1, n, k);
        HeadSkipped(s, lo, n, k);
      }
    }
  }

  /** A combination that starts with lo is lo before a combination of lo+1..n-1. */
  lemma HeadChosen(s: seq<nat>, lo: nat, n: nat, k: nat)
    requires k > 0 && lo < n && |s| == k && s[0] == lo && s[1..] in Combinations(lo + 1, n, k - 1)
    ensures s in Combinations(lo, n, k)
  {
    var cs := Combinations(lo + 1, n, k - 1);
    var i :| 0 <= i < |cs| && cs[i] == s[1..];
    assert Prepend(lo, cs)[i] == s;
  }

  /** The combinations of lo+1..n-1 are among those of lo..n-1. */
  lemma HeadSkipped(s: seq<nat>, lo: nat, n: nat, k: nat)
    requires k > 0 && lo < n && s in Combinations(lo + 1, n, k)
    ensures s in Combinations(lo, n, k)
  {
  }

  /** Over all k-combinations of 0..n-1 the indices are exactly 0..C(n, k)-1, one each:
      every index is reached, by Unrank, and no two combinations share one. */
  lemma IndexIsBijection(n: nat, k: nat)
    ensures forall s :: s in Combinations(0, n, k) ==> HandToIndex(s) < Choose(n, k)
    ensures forall m :: 0 <= m < Choose(n, k) ==>
      Unrank(m, k, n) in Combinations(0, n, k) && HandToIndex(Unrank(m, k, n)) == m
    ensures forall s, t ::
      (s in Combinations(0, n, k) && t in Combinations(0, n, k) && HandToIndex(s) == HandToIndex(t)) ==> s == t
  {
    CombinationsSound(0, n, k);
    forall s | s in Combinations(0, n, k) ensures HandToIndex(s) == CombIndex(s) < Choose(n, k) {
      IncreasingIndex(s);
      CombIndexBelow(s, n);
    }
    forall m | 0 <= m < Choose(n, k)
      ensures Unrank(m, k, n) in Combinations(0, n, k) && HandToIndex(Unrank(m, k, n)) == m
    {
      var s := Unrank(m, k, n);
      CombinationsComplete(s, 0, n, k);
      IncreasingIndex(s);
    }
    forall s, t | s in Combinations(0, n, k) && t in Combinations(0, n, k) && HandToIndex(s) == HandToIndex(t)
      ensures s == t
    {
      IncreasingIndex(s);
      IncreasingIndex(t);
      CombIndexInjective(s, t);
    }
  }
}
