/** The insertion sort of the capacity strategy (memory/scoped_lifecycle.go). */
module PairSort {
  import opened Ordering

  datatype Pair = Pair(id: string, imp: real)

  predicate Cheaper(a: Pair, b: Pair)
  {
    a.imp < b.imp
  }

  // ----- What the sort computes -----

  /** Insert after every pair that is no more important. */
  function InsertRight(s: seq<Pair>, x: Pair): (r: seq<Pair>)
    ensures |r| == |s| + 1
  {
    if s == [] || s[|s| - 1].imp <= x.imp then s + [x]
    else InsertRight(s[..|s| - 1], x) + [s[|s| - 1]]
  }

  function InsertionSort(s: seq<Pair>): (r: seq<Pair>)
    ensures |r| == |s|
  {
    if s == [] then [] else InsertRight(InsertionSort(s[..|s| - 1]), s[|s| - 1])
  }

  lemma {:induction false} InsertRightAt(s: seq<Pair>, x: Pair, j: nat)
    requires j <= |s|
    requires j == 0 || s[j - 1].imp <= x.imp
    requires forall k :: j <= k < |s| ==> s[k].imp > x.imp
    ensures InsertRight(s, x) == s[..j] + [x] + s[j..]
  {
    if j < |s| {
      var init, last := s[..|s| - 1], s[|s| - 1];
      assert last.imp > x.imp && InsertRight(s, x) == InsertRight(init, x) + [last];
      InsertRightAt(init, x, j);
      assert init[..j] == s[..j] && s[j..] == init[j..] + [last];
      hide InsertRight;
      Reassociated(s[..j] + [x], init[j..], last);
    } else {
      assert s[..j] == s && s[j..] == [];
    }
  }

  lemma Reassociated(a: seq<Pair>, b: seq<Pair>, last: Pair)
    ensures a + b + [last] == a + (b + [last])
  {
  }

  // ----- That it is a stable sort -----

  /** The pairs of one importance, in order of appearance. */
  function WithImportance(s: seq<Pair>, imp: real): seq<Pair>
  {
    if s == [] then []
    else WithImportance(s[..|s| - 1], imp) + (if s[|s| - 1].imp == imp then [s[|s| - 1]] else [])
  }

  lemma {:induction false} InsertRightStable(s: seq<Pair>, x: Pair, imp: real)
    ensures WithImportance(InsertRight(s, x), imp) == WithImportance(s, imp) + (if x.imp == imp then [x] else [])
  {
    if s == [] || s[|s| - 1].imp <= x.imp {
      assert (s + [x])[..|s|] == s;
    } else {
      var init, last := s[..|s| - 1], s[|s| - 1];
      InsertRightStable(init, x, imp);
      assert InsertRight(s, x)[..|s|] == InsertRight(init, x);
    }
  }

  lemma SortedAppend(s: seq<Pair>, x: Pair)
    requires Sorted(s, Cheaper)
    requires forall y :: y in s ==> y.imp <= x.imp
    ensures Sorted(s + [x], Cheaper)
  {
  }

  lemma LastIsMost(s: seq<Pair>, y: Pair)
    requires Sorted(s, Cheaper) && y in s
    ensures y.imp <= s[|s| - 1].imp
  {
    var i :| 0 <= i < |s| && s[i] == y;
    assert i < |s| - 1 ==> !Cheaper(s[|s| - 1], s[i]);
  }

  lemma {:induction false} InsertRightElements(s: seq<Pair>, x: Pair)
    ensures multiset(InsertRight(s, x)) == multiset(s) + multiset{x}
    ensures forall y :: y in InsertRight(s, x) ==> y == x || y in s
  {
    if s != [] && s[|s| - 1].imp > x.imp {
      assert s == s[..|s| - 1] + [s[|s| - 1]];
      InsertRightElements(s[..|s| - 1], x);
    }
  }

  lemma {:induction false} InsertRightSorted(s: seq<Pair>, x: Pair)
    requires Sorted(s, Cheaper)
    ensures Sorted(InsertRight(s, x), Cheaper)
  {
    forall y | y in s ensures y.imp <= s[|s| - 1].imp { LastIsMost(s, y); }
    if s == [] || s[|s| - 1].imp <= x.imp {
      SortedAppend(s, x);
    } else {
      var init, last := s[..|s| - 1], s[|s| - 1];
      InsertRightSorted(init, x);
      InsertRightElements(init, x);
      SortedAppend(InsertRight(init, x), last);
    }
  }

  /** Sorted by importance, the same pairs, and equal importances keep their order. */
  lemma {:induction false} InsertionSortIsStableSort(s: seq<Pair>)
    ensures Sorted(InsertionSort(s), Cheaper)
    ensures Permutation(InsertionSort(s), s)
    ensures forall imp :: WithImportance(InsertionSort(s), imp) == WithImportance(s, imp)
  {
    if s != [] {
      var init, last := s[..|s| - 1], s[|s| - 1];
      assert s == init + [last];
      InsertionSortIsStableSort(init);
      InsertRightSorted(InsertionSort(init), last);
      InsertRightElements(InsertionSort(init), last);
      forall imp
        ensures WithImportance(InsertionSort(s), imp) == WithImportance(s, imp)
      {
        InsertRightStable(InsertionSort(init), last, imp);
      }
    }
  }

  /** Ascending importance, and the same pairs. */
  lemma SortedAscending(s: seq<Pair>)
    ensures multiset(InsertionSort(s)) == multiset(s)
    ensures forall i, j :: 0 <= i < j < |s| ==> InsertionSort(s)[i].imp <= InsertionSort(s)[j].imp
  {
    InsertionSortIsStableSort(s);
    hide InsertionSort;
    assert forall i, j :: 0 <= i < j < |s| ==> !Cheaper(InsertionSort(s)[j], InsertionSort(s)[i]);
  }

  // ----- The in-place loop -----

  lemma SortStep(s: seq<Pair>, i: nat)
    requires i < |s|
    ensures InsertionSort(s[..i + 1]) == InsertRight(InsertionSort(s[..i]), s[i])
  {
    assert s[..i + 1][..i] == s[..i];
  }

  method SortPairsByImpAsc(pairs: array<Pair>)
    modifies pairs
    ensures pairs[..] == InsertionSort(old(pairs[..]))
  {
    ghost var was := pairs[..];
    var i := 1;
    while i < pairs.Length
      invariant pairs.Length == 0 || 1 <= i <= pairs.Length
      invariant pairs.Length > 0 ==> pairs[..i] == InsertionSort(was[..i])
      invariant pairs.Length > 0 ==> pairs[i..] == was[i..]
    {
      assert pairs[i] == pairs[i..][0] == was[i..][0] == was[i];
      assert pairs[i + 1..] == pairs[i..][1..] == was[i..][1..] == was[i + 1..];
      SortStep(was, i);
      hide InsertionSort, InsertRight;
      SiftDown(pairs, i);
      i := i + 1;
    }
    if pairs.Length > 0 {
      assert pairs[..i] == pairs[..] && was[..i] == was;
    }
  }

  /** The inner loop: move the pair at `i` left past every more important one. */
  method SiftDown(pairs: array<Pair>, i: nat)
    requires 0 < i < pairs.Length
    modifies pairs
    ensures pairs[..i + 1] == InsertRight(old(pairs[..i]), old(pairs[i]))
    ensures pairs[i + 1..] == old(pairs[i + 1..])
  {
    ghost var was := pairs[..];
    ghost var j := SwapLeft(pairs, i);
    hide InsertRight;
    InsertRightAt(was[..i], was[i], j);
    Shifted(was, pairs[..], i, j);
    assert pairs[..][..i + 1] == pairs[..i + 1] && pairs[..][i + 1..] == pairs[i + 1..];
    assert was[..i] == old(pairs[..i]) && was[i + 1..] == old(pairs[i + 1..]);
  }

  /** The pair at `i` moved to `j`, and those between one place up. */
  lemma Shifted(was: seq<Pair>, s: seq<Pair>, i: nat, j: nat)
    requires |s| == |was| && j <= i < |was| && s[j] == was[i]
    requires forall k :: 0 <= k < j ==> s[k] == was[k]
    requires forall k :: j < k <= i ==> s[k] == was[k - 1]
    requires forall k :: i < k < |was| ==> s[k] == was[k]
    ensures s[..i + 1] == was[..i][..j] + [was[i]] + was[..i][j..] && s[i + 1..] == was[i + 1..]
  {
  }

  method SwapLeft(pairs: array<Pair>, i: nat) returns (ghost place: nat)
    requires 0 < i < pairs.Length
    modifies pairs
    ensures place <= i && pairs[place] == old(pairs[i])
    ensures forall k :: 0 <= k < place ==> pairs[k] == old(pairs[k])
    ensures forall k :: place < k <= i ==> pairs[k] == old(pairs[k - 1])
    ensures forall k :: i < k < pairs.Length ==> pairs[k] == old(pairs[k])
    ensures forall k :: place <= k < i ==> old(pairs[k]).imp > old(pairs[i]).imp
    ensures place > 0 ==> old(pairs[place - 1]).imp <= old(pairs[i]).imp
  {
    var j := i;
    while j > 0 && pairs[j - 1].imp > pairs[j].imp
      invariant 0 <= j <= i
      invariant pairs[j] == old(pairs[i])
      invariant forall k :: 0 <= k < j ==> pairs[k] == old(pairs[k])
      invariant forall k :: j < k <= i ==> pairs[k] == old(pairs[k - 1])
      invariant forall k :: j <= k < i ==> old(pairs[k]).imp > old(pairs[i]).imp
      invariant forall k :: i < k < pairs.Length ==> pairs[k] == old(pairs[k])
    {
      pairs[j - 1], pairs[j] := pairs[j], pairs[j - 1];
      j := j - 1;
    }
    place := j;
  }
}
