/** What the cycling of the paging loop means for the callers that use its result. */
module CycledListing {
  import opened Types
  import opened Ordering
  import opened Rounds
  import opened PagedLoop

  lemma {:induction false} RepeatLength<T>(s: seq<T>, m: nat)
    ensures |Repeat(s, m)| == m * |s|
  {
    if m > 0 {
      RepeatLength(s, m - 1);
      assert (m - 1) * |s| == m * |s| - |s|;
    }
  }

  lemma {:induction false} RepeatElements<T>(s: seq<T>, m: nat)
    requires m > 0
    ensures forall x :: x in Repeat(s, m) <==> x in s
  {
    if m > 1 {
      RepeatElements(s, m - 1);
    } else {
      assert Repeat(s, 0) + s == s;
    }
  }

  lemma {:induction false} RepeatCount<T>(s: seq<T>, m: nat, x: T)
    requires Distinct(s) && x in s
    ensures multiset(Repeat(s, m))[x] == m
  {
    if m > 0 {
      RepeatCount(s, m - 1, x);
      DistinctCount(s, x);
      assert x in multiset(s);
    }
  }

  lemma RepeatOnce<T>(s: seq<T>, m: nat)
    ensures Repeat(s, m) == s <==> s == [] || m == 1
  {
    RepeatLength(s, m);
    if s == [] {
      assert m * 0 == 0;
    } else if m == 1 {
      assert Repeat(s, 0) + s == s;
    } else if m > 1 {
      MulStep(1, m, |s|);
    }
  }

  /** How many times the loop returned the listing of a tier. */
  ghost function Copies(ls: ItemLists, n: nat, rounds: nat, k: Kind): nat
    requires n > 0 && k in ls
  {
    rounds / PageCount(|ls[k]|, n)
  }

  lemma CopiesOf(out: ItemLists, ls: ItemLists, n: nat, rounds: nat, k: Kind)
    requires n > 0 && k in ls && CycledListings(out, ls, n, rounds)
    ensures k in out && out[k] == Repeat(ls[k], Copies(ls, n, rounds, k))
    ensures Copies(ls, n, rounds, k) >= 1
    ensures Copies(ls, n, rounds, k) == 1 <==> CommonMultiple(PageCount(|ls[k]|, n), PageCounts(ls, n))
  {
    assert PageCounts(ls, n)[k] == PageCount(|ls[k]|, n);
    LcmIsOwnCount(rounds, PageCounts(ls, n), k);
  }

  /** Nothing is missed, and every listed item comes out rounds / p times, p being its tier's page count. */
  lemma NothingMissed(out: ItemLists, ls: ItemLists, n: nat, rounds: nat, k: Kind)
    requires n > 0 && CycledListings(out, ls, n, rounds) && k in ls && Distinct(ls[k])
    ensures forall x :: x in out[k] <==> x in ls[k]
    ensures forall x :: x in ls[k] ==> multiset(out[k])[x] == rounds / PageCount(|ls[k]|, n) >= 1
  {
    var p := PageCount(|ls[k]|, n);
    assert p == PageCounts(ls, n)[k];
    LcmIsOwnCount(rounds, PageCounts(ls, n), k);
    RepeatElements(ls[k], rounds / p);
    forall x | x in ls[k]
      ensures multiset(out[k])[x] == rounds / p
    {
      RepeatCount(ls[k], rounds / p, x);
    }
  }

  /** A tier is enumerated as documented exactly when it is empty or every tier's page count divides its own. */
  lemma ListedOnceIff(out: ItemLists, ls: ItemLists, n: nat, rounds: nat, k: Kind)
    requires n > 0 && CycledListings(out, ls, n, rounds) && k in ls
    ensures out[k] == ls[k] <==> ls[k] == [] || CommonMultiple(PageCount(|ls[k]|, n), PageCounts(ls, n))
  {
    var p := PageCount(|ls[k]|, n);
    assert p == PageCounts(ls, n)[k];
    LcmIsOwnCount(rounds, PageCounts(ls, n), k);
    RepeatOnce(ls[k], rounds / p);
  }

  /** One working item beside an episodic tier of one page and one item is listed twice. */
  lemma ShortTierListedTwice(out: ItemLists, ls: ItemLists, n: nat, rounds: nat, x: Item)
    requires n > 0 && CycledListings(out, ls, n, rounds)
    requires ls.Keys == {Working, Episodic} && ls[Working] == [x] && |ls[Episodic]| == n + 1
    ensures rounds == 2 && out[Working] == [x, x]
  {
    var counts := PageCounts(ls, n);
    assert counts[Working] == 1;
    assert counts[Episodic] == 1 + PageCount(1, n) == 2;
    assert CommonMultiple(2, counts);
    assert !CommonMultiple(1, counts);
    assert Repeat([x], 2) == Repeat([x], 1) + [x] == [] + [x] + [x];
  }
}
