/** Orders and sorting shared by listing, export and recall. */
module Ordering {

  // ----- Strings, compared the way the source's `<` on strings compares them -----

  predicate StringLess(a: string, b: string)
  {
    if b == [] then false
    else if a == [] then true
    else if a[0] != b[0] then a[0] < b[0]
    else StringLess(a[1..], b[1..])
  }

  lemma {:induction false} StringTrichotomy(a: string, b: string)
    ensures StringLess(a, b) || StringLess(b, a) || a == b
    ensures !(StringLess(a, b) && StringLess(b, a))
    ensures a == b ==> !StringLess(a, b)
  {
    if a != [] && b != [] && a[0] == b[0] {
      StringTrichotomy(a[1..], b[1..]);
      assert a == [a[0]] + a[1..] && b == [b[0]] + b[1..];
    }
  }

  lemma {:induction false} StringLessTransitive(a: string, b: string, c: string)
    requires StringLess(a, b) && StringLess(b, c)
    ensures StringLess(a, c)
  {
    if a != [] && a[0] == b[0] && b[0] == c[0] {
      StringLessTransitive(a[1..], b[1..], c[1..]);
    }
  }

  /** Dictionary order: the first difference decides, and a proper prefix comes first. */
  lemma {:induction false} StringLessIff(a: string, b: string)
    ensures StringLess(a, b) <==>
            exists k :: 0 <= k <= |a| && k <= |b| && a[..k] == b[..k]
                        && (if k < |a| && k < |b| then a[k] < b[k] else k == |a| < |b|)
  {
    if a != [] && b != [] && a[0] == b[0] {
      StringLessIff(a[1..], b[1..]);
      if k :| 0 <= k <= |a[1..]| && k <= |b[1..]| && a[1..][..k] == b[1..][..k]
              && (if k < |a[1..]| && k < |b[1..]| then a[1..][k] < b[1..][k] else k == |a[1..]| < |b[1..]|) {
        SamePrefix(a, b, k);
      }
      if k :| 0 <= k <= |a| && k <= |b| && a[..k] == b[..k]
              && (if k < |a| && k < |b| then a[k] < b[k] else k == |a| < |b|) {
        assert k > 0;
        assert a[1..][..k - 1] == a[..k][1..] == b[..k][1..] == b[1..][..k - 1];
      }
    } else {
      assert a[..0] == b[..0];
      if k :| 0 < k <= |a| && k <= |b| && a[..k] == b[..k] {
        assert a[0] == a[..k][0] == b[..k][0] == b[0];
      }
    }
  }

  lemma SamePrefix(a: string, b: string, k: nat)
    requires a != [] && b != [] && a[0] == b[0] && k <= |a[1..]| && k <= |b[1..]| && a[1..][..k] == b[1..][..k]
    ensures a[..k + 1] == b[..k + 1]
  {
    assert a[..k + 1] == [a[0]] + a[1..][..k];
    assert b[..k + 1] == [b[0]] + b[1..][..k];
  }

  lemma StringOrder()
    ensures forall a: string, b: string :: StringLess(a, b) || StringLess(b, a) || a == b
    ensures forall a: string, b: string :: !(StringLess(a, b) && StringLess(b, a))
    ensures forall a: string :: !StringLess(a, a)
    ensures forall a: string, b: string, c: string :: StringLess(a, b) && StringLess(b, c) ==> StringLess(a, c)
  {
    forall a: string, b: string
      ensures StringLess(a, b) || StringLess(b, a) || a == b
      ensures !(StringLess(a, b) && StringLess(b, a))
      ensures a == b ==> !StringLess(a, b)
    {
      StringTrichotomy(a, b);
    }
    forall a: string, b: string, c: string | StringLess(a, b) && StringLess(b, c)
      ensures StringLess(a, c)
    {
      StringLessTransitive(a, b, c);
    }
  }

  // ----- Sorting by a comparison function, as the library sort is used -----

  /** What a sort comparator must satisfy: a strict weak order. */
  ghost predicate StrictWeakOrder<T(!new)>(less: (T, T) -> bool)
  {
    && (forall x, y :: less(x, y) ==> !less(y, x))
    && (forall x, y, z {:trigger less(x, y), less(y, z)} :: less(x, y) && less(y, z) ==> less(x, z))
    && (forall x, y, z {:trigger less(x, y), less(y, z)} :: !less(x, y) && !less(y, z) ==> !less(x, z))
  }

  ghost predicate Sorted<T>(s: seq<T>, less: (T, T) -> bool)
  {
    forall i, j :: 0 <= i < j < |s| ==> !less(s[j], s[i])
  }

  ghost predicate StrictlySorted<T>(s: seq<T>, less: (T, T) -> bool)
  {
    forall i, j :: 0 <= i < j < |s| ==> less(s[i], s[j])
  }

  /** `s` lists exactly the elements of `t`, with the same multiplicities. */
  ghost predicate Permutation<T>(s: seq<T>, t: seq<T>)
  {
    multiset(s) == multiset(t)
  }

  /**
   * The library sort: all a caller may rely on is that the result is a sorted
   * permutation, so every result below holds for any order among equals.
   */
  method Sort<T(!new)>(s: seq<T>, less: (T, T) -> bool) returns (r: seq<T>)
    requires StrictWeakOrder(less)
    ensures Permutation(r, s)
    ensures Sorted(r, less)
  {
    r := [];
    for i := 0 to |s|
      invariant multiset(r) == multiset(s[..i])
      invariant Sorted(r, less)
    {
      assert s[..i + 1] == s[..i] + [s[i]];
      r := Insert(r, s[i], less);
    }
    assert s[..|s|] == s;
  }

  method Insert<T(!new)>(s: seq<T>, x: T, less: (T, T) -> bool) returns (r: seq<T>)
    requires StrictWeakOrder(less) && Sorted(s, less)
    ensures multiset(r) == multiset(s) + multiset{x}
    ensures Sorted(r, less)
  {
    var k := |s|;
    while k > 0 && less(x, s[k - 1])
      invariant 0 <= k <= |s|
      invariant forall j :: k <= j < |s| ==> less(x, s[j])
    {
      k := k - 1;
    }
    hide StrictWeakOrder, Sorted;
    assert s == s[..k] + s[k..];
    r := s[..k] + [x] + s[k..];
    InsertedIsSorted(s, k, x, less);
  }

  lemma InsertedIsSorted<T(!new)>(s: seq<T>, k: int, x: T, less: (T, T) -> bool)
    requires StrictWeakOrder(less) && Sorted(s, less)
    requires 0 <= k <= |s|
    requires forall j :: k <= j < |s| ==> less(x, s[j])
    requires k > 0 ==> !less(x, s[k - 1])
    ensures Sorted(s[..k] + [x] + s[k..], less)
  {
    var r := s[..k] + [x] + s[k..];
    forall i, j | 0 <= i < j < |r|
      ensures !less(r[j], r[i])
    {
      if j == k {
        assert r[j] == x && r[i] == s[i];
        assert i < k - 1 ==> !less(s[k - 1], s[i]);
      } else if i == k {
        assert less(x, s[j - 1]);
      } else {
        var i', j' := if i < k then i else i - 1, if j < k then j else j - 1;
        assert r[i] == s[i'] && r[j] == s[j'];
      }
    }
  }

  /** Two strictly sorted sequences with the same elements are the same sequence. */
  lemma {:induction false} StrictlySortedUnique<T>(s: seq<T>, t: seq<T>, less: (T, T) -> bool)
    requires StrictlySorted(s, less) && StrictlySorted(t, less)
    requires forall x, y :: x in s && y in s ==> !(less(x, y) && less(y, x))
    requires forall x :: x in s <==> x in t
    ensures s == t
  {
    if s != [] {
      assert s[0] in s && s[0] in t;
    }
    if t != [] {
      assert t[0] in t && t[0] in s;
    }
    if s != [] && t != [] {
      assert s[0] == t[0];
      SameTail(s, t, less);
      StrictlySortedUnique(s[1..], t[1..], less);
      assert s == [s[0]] + s[1..] && t == [t[0]] + t[1..];
    }
  }

  lemma SameTail<T>(s: seq<T>, t: seq<T>, less: (T, T) -> bool)
    requires StrictlySorted(s, less) && StrictlySorted(t, less)
    requires forall x, y :: x in s && y in s ==> !(less(x, y) && less(y, x))
    requires forall x :: x in s <==> x in t
    requires s != [] && t != [] && s[0] == t[0]
    ensures forall x :: x in s[1..] <==> x in t[1..]
  {
    assert s == [s[0]] + s[1..] && t == [t[0]] + t[1..];
    assert s[0] !in s[1..] && t[0] !in t[1..];
  }

  /** Two sorted permutations of each other agree, position by position, up to the order's ties. */
  lemma SortedAgree<T(!new)>(s: seq<T>, t: seq<T>, less: (T, T) -> bool, i: int)
    requires StrictWeakOrder(less)
    requires Sorted(s, less) && Sorted(t, less) && Permutation(s, t)
    requires 0 <= i < |s|
    ensures |s| == |t|
    ensures !less(s[i], t[i]) && !less(t[i], s[i])
  {
    assert |multiset(s)| == |multiset(t)|;
    SortedNotLess(s, t, less, i);
    SortedNotLess(t, s, less, i);
  }

  lemma SortedNotLess<T(!new)>(s: seq<T>, t: seq<T>, less: (T, T) -> bool, i: int)
    requires StrictWeakOrder(less)
    requires Sorted(s, less) && Sorted(t, less) && Permutation(s, t)
    requires 0 <= i < |s| == |t|
    ensures !less(s[i], t[i])
  {
    if less(s[i], t[i]) {
      forall j, k | 0 <= j <= i <= k < |t|
        ensures s[j] != t[k]
      {
        assert j < i ==> !less(s[i], s[j]);
        assert i < k ==> !less(t[k], t[i]);
      }
      PrefixFits(s, t, i + 1, i);
      assert false;
    }
  }

  /** If no element of `s[..m]` occurs in `t` at position `n` or later, then `m <= n`. */
  lemma PrefixFits<T>(s: seq<T>, t: seq<T>, m: int, n: int)
    requires Permutation(s, t)
    requires 0 <= m <= |s| && 0 <= n <= |t|
    requires forall j, k :: 0 <= j < m && n <= k < |t| ==> s[j] != t[k]
    ensures m <= n
  {
    var head, low := s[..m], t[..n];
    assert s == head + s[m..] && t == low + t[n..];
    forall x | x in head
      ensures multiset(head)[x] <= multiset(low)[x]
    {
      assert multiset(t)[x] == multiset(low)[x] + multiset(t[n..])[x];
    }
    assert multiset(head) <= multiset(low);
    assert multiset(low) == multiset(head) + (multiset(low) - multiset(head));
  }

  ghost predicate Distinct<T>(s: seq<T>)
  {
    forall i, j :: 0 <= i < j < |s| ==> s[i] != s[j]
  }

  lemma {:induction false} DistinctCount<T>(s: seq<T>, x: T)
    requires Distinct(s)
    ensures multiset(s)[x] <= 1
  {
    if s != [] {
      assert s == [s[0]] + s[1..];
      DistinctCount(s[1..], x);
    }
  }

  lemma DistinctPermutation<T>(s: seq<T>, t: seq<T>)
    requires Distinct(s) && Permutation(s, t)
    ensures Distinct(t)
  {
    forall i, j | 0 <= i < j < |t|
      ensures t[i] != t[j]
    {
      DistinctCount(s, t[i]);
      assert t == t[..j] + [t[j]] + t[j + 1..];
      assert t[i] in t[..j];
    }
  }

  lemma SameElements<T>(s: seq<T>, t: seq<T>)
    requires Permutation(s, t)
    ensures |s| == |t|
    ensures forall x :: x in s <==> x in t
  {
    assert |multiset(s)| == |multiset(t)|;
    forall x
      ensures x in s <==> x in t
    {
      assert x in s <==> x in multiset(s);
      assert x in t <==> x in multiset(t);
    }
  }
}
