/** What forgetting keeps and what it removes, also when the paging loop repeats a listing. */
module ForgetProofs {
  import opened Types
  import opened Ordering
  import opened Rounds
  import opened PagedLoop
  import opened CycledListing
  import opened PairSort
  import opened Forget

  // ----- Selection: never pinned, unlisted or foreign items -----

  /** Importance and age strategies remove exactly the admitted, unpinned items below the threshold or too old. */
  lemma MatchingIsExact(tiers: Tiers, admits: Item -> bool, pinned: Item -> bool, opts: ForgetOptions, now: Time,
                        out: ItemLists, rounds: nat, kind: Kind, id: string)
    requires WellFormedTiers(tiers) && kind in tiers && !opts.strategy.ByCapacity?
    requires CycledListings(out, Listings(tiers, admits), 200, rounds)
    ensures kind in out
    ensures id in Victims(out[kind], pinned, opts, now) <==>
              && id in tiers[kind]
              && admits(tiers[kind][id]) && !pinned(tiers[kind][id])
              && (opts.strategy.ByImportance? || opts.strategy.ByAge?)
              && (opts.strategy.ByImportance? ==> tiers[kind][id].importance < opts.threshold)
              && (opts.strategy.ByAge? ==> now - tiers[kind][id].createdAt > opts.maxAge)
  {
    CandidatesExist(tiers, admits, out, rounds, kind);
    if id in tiers[kind] && admits(tiers[kind][id]) {
      assert tiers[kind][id] in out[kind];
    }
  }

  /** No strategy removes an item that is pinned or that the filter does not admit. */
  lemma VictimsAreAdmittedAndUnpinned(tiers: Tiers, admits: Item -> bool, pinned: Item -> bool, opts: ForgetOptions,
                                      now: Time, out: ItemLists, rounds: nat, kind: Kind, id: string)
    requires WellFormedTiers(tiers) && kind in tiers
    requires CycledListings(out, Listings(tiers, admits), 200, rounds)
    requires kind in out && id in Victims(out[kind], pinned, opts, now)
    ensures id in tiers[kind] && admits(tiers[kind][id]) && !pinned(tiers[kind][id])
  {
    hide CycledListings, Listings, Evicted, Matching, WellFormed;
    if opts.strategy.ByCapacity? {
      CandidatesExist(tiers, admits, out, rounds, kind);
      var x := EvictedIsCandidate(out[kind], pinned, opts.keep, id);
    } else {
      MatchingIsExact(tiers, admits, pinned, opts, now, out, rounds, kind, id);
    }
  }

  // ----- The capacity strategy over a listing that came out `m` times -----

  lemma {:induction false} PairsOfConcat(a: seq<Item>, b: seq<Item>, pinned: Item -> bool)
    ensures UnpinnedPairs(a + b, pinned) == UnpinnedPairs(a, pinned) + UnpinnedPairs(b, pinned)
  {
    if b == [] {
      assert a + b == a;
    } else {
      var init, it := b[..|b| - 1], b[|b| - 1];
      PairsOfConcat(a, init, pinned);
      var last := if pinned(it) then [] else [Pair(it.id, it.importance)];
      assert (a + b)[..|a + b| - 1] == a + init && (a + b)[|a + b| - 1] == it;
      assert UnpinnedPairs(b, pinned) == UnpinnedPairs(init, pinned) + last;
      assert UnpinnedPairs(a + b, pinned) == UnpinnedPairs(a + init, pinned) + last;
      hide UnpinnedPairs;
    }
  }

  lemma {:induction false} PairsOfRepeat(l: seq<Item>, m: nat, pinned: Item -> bool)
    ensures UnpinnedPairs(Repeat(l, m), pinned) == Repeat(UnpinnedPairs(l, pinned), m)
  {
    if m > 0 {
      PairsOfRepeat(l, m - 1, pinned);
      PairsOfConcat(Repeat(l, m - 1), l, pinned);
    }
  }

  ghost predicate DistinctIds(ps: seq<Pair>)
  {
    forall i, j :: 0 <= i < j < |ps| ==> ps[i].id != ps[j].id
  }

  lemma {:induction false} IdCount(ps: seq<Pair>)
    requires DistinctIds(ps)
    ensures |IdsOf(ps)| == |ps|
  {
    if ps == [] {
      assert IdsOf(ps) == {};
    } else {
      var init, last := ps[..|ps| - 1], ps[|ps| - 1];
      assert ps == init + [last];
      IdCount(init);
      IdsNext(init, last);
      assert last.id !in IdsOf(init);
    }
  }

  lemma {:induction false} IdImage(s: set<Pair>)
    requires forall p, q :: p in s && q in s && p.id == q.id ==> p == q
    ensures |set p | p in s :: p.id| == |s|
  {
    if s == {} {
      assert (set p | p in s :: p.id) == {};
    } else {
      var x :| x in s;
      var rest := s - {x};
      IdImage(rest);
      assert (set p | p in s :: p.id) == (set p | p in rest :: p.id) + {x.id};
      assert x.id !in (set p | p in rest :: p.id);
    }
  }

  /** Elements that each occur at least `m` times need `m` places each. */
  lemma {:induction false} RoomFor<T>(s: set<T>, c: multiset<T>, m: nat)
    requires forall x :: x in s ==> c[x] >= m
    ensures |s| * m <= |c|
  {
    if s != {} {
      var x :| x in s;
      var rest := c[x := 0];
      RoomFor(s - {x}, rest, m);
      assert c == rest + multiset{}[x := c[x]];
      assert |s| == |s - {x}| + 1;
      assert |s| * m == |s - {x}| * m + m;
    }
  }

  /** The facts about one capacity pass: `s` is sorted, and the first `e` of its pairs are removed. */
  ghost predicate Pass(all: seq<Pair>, m: nat, keep: nat, s: seq<Pair>, gone: set<string>)
  {
    && DistinctIds(all) && m > 0 && 0 < keep < |s|
    && Sorted(s, Cheaper)
    && Permutation(s, Repeat(all, m))
    && gone == IdsOf(s[..|s| - keep])
  }

  lemma PassElements(all: seq<Pair>, m: nat, keep: nat, s: seq<Pair>, gone: set<string>)
    requires Pass(all, m, keep, s, gone)
    ensures forall p :: p in s <==> p in all
    ensures forall p, q :: p in all && q in all && p.id == q.id ==> p == q
    ensures forall p :: p in all ==> (p.id in gone <==> p in s[..|s| - keep])
    ensures gone <= IdsOf(all)
  {
    SameElements(s, Repeat(all, m));
    RepeatElements(all, m);
    forall p, q | p in all && q in all && p.id == q.id
      ensures p == q
    {
      var i :| 0 <= i < |all| && all[i] == p;
      var j :| 0 <= j < |all| && all[j] == q;
    }
  }

  /** Every removed pair is at most as important as every kept one. */
  lemma LeastImportantGo(all: seq<Pair>, m: nat, keep: nat, s: seq<Pair>, gone: set<string>, p: Pair, q: Pair)
    requires Pass(all, m, keep, s, gone)
    requires p in all && q in all && p.id in gone && q.id !in gone
    ensures p.imp <= q.imp
  {
    PassElements(all, m, keep, s, gone);
    var e := |s| - keep;
    assert s == s[..e] + s[e..];
    var i :| 0 <= i < e && s[i] == p;
    var j :| e <= j < |s| && s[j] == q;
    assert !Cheaper(s[j], s[i]);
  }

  /** Without repeats exactly `keep` survive. */
  lemma KeepsExactly(all: seq<Pair>, keep: nat, s: seq<Pair>, gone: set<string>)
    requires Pass(all, 1, keep, s, gone)
    ensures |IdsOf(all) - gone| == keep
  {
    PassElements(all, 1, keep, s, gone);
    OnceIsAll(all, s);
    IdCount(all);
    IdCount(s[..|s| - keep]);
    Remainder(IdsOf(all), gone);
  }

  lemma OnceIsAll(all: seq<Pair>, s: seq<Pair>)
    requires DistinctIds(all) && Permutation(s, Repeat(all, 1))
    ensures |s| == |all| && DistinctIds(s)
  {
    assert Repeat(all, 1) == Repeat(all, 0) + all == all;
    SortedIdsDistinct(all, s);
  }

  lemma Remainder(a: set<string>, b: set<string>)
    requires b <= a
    ensures |a - b| == |a| - |b|
  {
    assert a == (a - b) + b;
  }

  lemma SortedIdsDistinct(all: seq<Pair>, s: seq<Pair>)
    requires DistinctIds(all) && Permutation(s, all)
    ensures |s| == |all| && DistinctIds(s)
  {
    SameElements(s, all);
    DistinctPermutation(all, s);
    forall i, j | 0 <= i < j < |s|
      ensures s[i].id != s[j].id
    {
      assert s[i] in all && s[j] in all;
    }
  }

  /** With `m` copies of everything, each survivor takes up `m` of the `keep` places. */
  lemma SurvivorsNeedRoom(all: seq<Pair>, m: nat, keep: nat, s: seq<Pair>, gone: set<string>)
    requires Pass(all, m, keep, s, gone)
    ensures |IdsOf(all) - gone| * m <= keep
  {
    PassElements(all, m, keep, s, gone);
    var tail := s[|s| - keep..];
    var kept := set p | p in all && p.id !in gone;
    forall p | p in kept
      ensures multiset(tail)[p] >= m
    {
      KeptCopies(all, m, keep, s, gone, p);
    }
    hide Pass, Permutation, Repeat, Sorted;
    RoomFor(kept, multiset(tail), m);
    IdImage(kept);
    assert (set p | p in kept :: p.id) == IdsOf(all) - gone;
  }

  /** All copies of a kept pair stand in the kept part. */
  lemma KeptCopies(all: seq<Pair>, m: nat, keep: nat, s: seq<Pair>, gone: set<string>, p: Pair)
    requires Pass(all, m, keep, s, gone) && p in all && p.id !in gone
    ensures multiset(s[|s| - keep..])[p] >= m
  {
    PassElements(all, m, keep, s, gone);
    var head, tail := s[..|s| - keep], s[|s| - keep..];
    assert s == head + tail && Distinct(all);
    RepeatCount(all, m, p);
    TailCount(head, tail, p);
  }

  lemma TailCount(head: seq<Pair>, tail: seq<Pair>, p: Pair)
    requires p !in head
    ensures multiset(head + tail)[p] == multiset(tail)[p]
  {
  }

  lemma UnpinnedDistinct(l: seq<Item>, pinned: Item -> bool)
    requires forall i, j :: 0 <= i < j < |l| ==> l[i].id != l[j].id
    ensures DistinctIds(UnpinnedPairs(l, pinned))
  {
    if l != [] {
      var init, last := l[..|l| - 1], l[|l| - 1];
      UnpinnedDistinct(init, pinned);
      PairsAreCandidates(init, pinned);
    }
  }

  /** One capacity pass over `m` copies of `all`. */
  ghost predicate CapacityOutcome(all: seq<Pair>, m: nat, keep: nat, gone: set<string>)
  {
    && |IdsOf(all)| == |all| && gone <= IdsOf(all)
    && (|IdsOf(all) - gone| == Min(|all|, keep) <==> m == 1 || |all| * m <= keep)
    && |IdsOf(all) - gone| <= Min(|all|, keep)
    && forall p, q :: p in all && q in all && p.id in gone && q.id !in gone ==> p.imp <= q.imp
  }

  lemma PassOutcome(all: seq<Pair>, m: nat, keep: nat, s: seq<Pair>, gone: set<string>)
    requires Pass(all, m, keep, s, gone) && |all| * m > keep && (m == 1 ==> |all| > keep)
    ensures CapacityOutcome(all, m, keep, gone)
  {
    PassElements(all, m, keep, s, gone);
    IdCount(all);
    if m == 1 {
      KeepsExactly(all, keep, s, gone);
    } else {
      SurvivorsNeedRoom(all, m, keep, s, gone);
      TooFew(|IdsOf(all) - gone|, m, |all|, keep);
    }
    forall p, q | p in all && q in all && p.id in gone && q.id !in gone
      ensures p.imp <= q.imp
    {
      LeastImportantGo(all, m, keep, s, gone, p, q);
    }
  }

  lemma CapacityPass(all: seq<Pair>, m: nat, keep: nat)
    requires DistinctIds(all) && m > 0 && keep > 0
    ensures CapacityOutcome(all, m, keep, Evicted(Repeat(all, m), keep))
  {
    var copies := Repeat(all, m);
    RepeatLength(all, m);
    hide Repeat;
    if |copies| > keep {
      EvictingPass(all, m, keep, copies);
      hide *;
      PassOutcome(all, m, keep, InsertionSort(copies), Evicted(copies, keep));
    } else {
      assert Evicted(copies, keep) == {};
      hide Evicted;
      AllKept(all, m, keep);
    }
  }

  lemma EvictingPass(all: seq<Pair>, m: nat, keep: nat, copies: seq<Pair>)
    requires DistinctIds(all) && m > 0 && keep > 0 && copies == Repeat(all, m) && |copies| > keep
    ensures Pass(all, m, keep, InsertionSort(copies), Evicted(copies, keep))
  {
    InsertionSortIsStableSort(copies);
    hide InsertionSort, Repeat;
    SameElements(InsertionSort(copies), copies);
  }

  lemma AllKept(all: seq<Pair>, m: nat, keep: nat)
    requires DistinctIds(all) && m > 0 && keep > 0 && m * |all| <= keep
    ensures CapacityOutcome(all, m, keep, {})
  {
    IdCount(all);
    MulMonotone(1, m, |all|);
    assert |all| * m == m * |all|;
    assert IdsOf(all) - {} == IdsOf(all);
  }

  /**
   * Forgetting by capacity over a listing that the paging loop returned `m` times:
   * exactly min(n, keep) of the n unpinned listed items survive if and only if the
   * listing came out once or all its copies fit; otherwise too many are removed.
   * Every removed item is at most as important as every kept one.
   */
  lemma CapacityKeepsIff(l: seq<Item>, m: nat, pinned: Item -> bool, keep: nat)
    requires forall i, j :: 0 <= i < j < |l| ==> l[i].id != l[j].id
    requires m > 0 && keep > 0
    ensures CapacityOutcome(UnpinnedPairs(l, pinned), m, keep, Evicted(UnpinnedPairs(Repeat(l, m), pinned), keep))
  {
    hide CapacityOutcome;
    UnpinnedDistinct(l, pinned);
    PairsOfRepeat(l, m, pinned);
    CapacityPass(UnpinnedPairs(l, pinned), m, keep);
  }

  // ----- How many survive -----

  ghost predicate DistinctImportances(ps: seq<Pair>)
  {
    forall p, q :: p in ps && q in ps && p.imp == q.imp ==> p == q
  }

  /** A removed pair of the highest importance among the removed. */
  lemma {:induction false} HighestOf(s: set<Pair>) returns (p: Pair)
    requires s != {}
    ensures p in s && forall q :: q in s ==> q.imp <= p.imp
    decreases |s|
  {
    p :| p in s;
    if s != {p} {
      var q := HighestOf(s - {p});
      if q.imp > p.imp {
        p := q;
      }
    }
  }

  lemma NotInTail(s: seq<Pair>, e: nat, p: Pair, q: Pair)
    requires Sorted(s, Cheaper) && e <= |s| && p in s[..e] && q.imp < p.imp
    ensures q !in s[e..]
  {
    var i :| 0 <= i < e && s[i] == p;
    forall j | e <= j < |s|
      ensures s[j] != q
    {
      assert !Cheaper(s[j], s[i]);
    }
  }

  /** If a more important pair stands in the head, all copies of `q` do. */
  lemma CopiesInHead(all: seq<Pair>, m: nat, keep: nat, s: seq<Pair>, gone: set<string>, p: Pair, q: Pair)
    requires Pass(all, m, keep, s, gone) && p in s[..|s| - keep] && q in all && q.imp < p.imp
    ensures multiset(s[..|s| - keep])[q] >= m
  {
    var head, tail := s[..|s| - keep], s[|s| - keep..];
    NotInTail(s, |s| - keep, p, q);
    CopiesInPass(all, m, keep, s, gone, q);
    hide *;
    TailCount(tail, head, q);
    HeadAndTail(s, |s| - keep);
  }

  lemma CopiesInPass(all: seq<Pair>, m: nat, keep: nat, s: seq<Pair>, gone: set<string>, q: Pair)
    requires Pass(all, m, keep, s, gone) && q in all
    ensures multiset(s)[q] == m
  {
    assert Distinct(all) && multiset(s)[q] == multiset(Repeat(all, m))[q];
    hide Repeat;
    RepeatCount(all, m, q);
  }

  lemma HeadAndTail(s: seq<Pair>, e: nat)
    requires e <= |s|
    ensures multiset(s[e..] + s[..e]) == multiset(s)
  {
    assert s == s[..e] + s[e..];
  }

  /** What is removed, as a set of pairs, and the most important of it. */
  lemma RemovedPairs(all: seq<Pair>, m: nat, keep: nat, s: seq<Pair>, gone: set<string>)
    returns (removed: set<Pair>, top: Pair)
    requires Pass(all, m, keep, s, gone)
    ensures |removed| == |gone| && top in removed && top in s[..|s| - keep]
    ensures forall q :: q in removed ==> q in all && q.imp <= top.imp
  {
    PassElements(all, m, keep, s, gone);
    var head := s[..|s| - keep];
    removed := set p | p in all && p.id in gone;
    assert head[0] in head && head[0] in s && head[0] in removed;
    assert gone <= IdsOf(all);
    hide Pass, Repeat;
    IdImage(removed);
    assert (set p | p in removed :: p.id) == gone;
    top := HighestOf(removed);
  }

  /** Elements with `m` places each, beside one more element. */
  lemma RoomBeside(others: set<Pair>, head: seq<Pair>, top: Pair, m: nat)
    requires top in head && top !in others && forall q :: q in others ==> multiset(head)[q] >= m
    ensures |others| * m < |head|
  {
    var c := multiset(head) - multiset{top};
    assert forall q :: q in others ==> c[q] >= m;
    RoomFor(others, c, m);
    assert |c| == |head| - 1;
  }

  /** All removed pairs but one take up all their places in the head, and that one takes at least one. */
  lemma RemovedFillHead(all: seq<Pair>, m: nat, keep: nat, s: seq<Pair>, gone: set<string>)
    requires Pass(all, m, keep, s, gone) && DistinctImportances(all)
    ensures gone != {} && (|gone| - 1) * m < |s| - keep
  {
    assert 0 < keep < |s|;
    var removed, top := RemovedPairs(all, m, keep, s, gone);
    var others := removed - {top};
    assert forall q :: q in others ==> q.imp < top.imp;
    hide Pass, DistinctImportances;
    forall q | q in others
      ensures multiset(s[..|s| - keep])[q] >= m
    {
      CopiesInHead(all, m, keep, s, gone, top, q);
    }
    RoomBeside(others, s[..|s| - keep], top, m);
    assert |others| == |gone| - 1;
  }

  lemma Quotients(survivors: nat, gone: nat, n: nat, m: nat, keep: nat)
    requires m > 0 && survivors + gone == n && gone > 0
    requires survivors * m <= keep && (gone - 1) * m < n * m - keep
    ensures survivors == keep / m
  {
    assert n * m == survivors * m + gone * m;
    assert (gone - 1) * m == gone * m - m;
    DivModUnique(keep, m, survivors, keep - survivors * m);
  }

  lemma PassKeeps(all: seq<Pair>, m: nat, keep: nat, s: seq<Pair>, gone: set<string>)
    requires Pass(all, m, keep, s, gone) && DistinctImportances(all) && |s| == |all| * m
    ensures |IdsOf(all) - gone| == keep / m
  {
    PassElements(all, m, keep, s, gone);
    SurvivorsNeedRoom(all, m, keep, s, gone);
    RemovedFillHead(all, m, keep, s, gone);
    IdCount(all);
    Remainder(IdsOf(all), gone);
    hide *;
    Quotients(|IdsOf(all) - gone|, |gone|, |all|, m, keep);
  }

  /**
   * How many survive when the copies do not fit: with pairwise distinct importances exactly keep / m of the
   * n unpinned items, where the listing came out `m` times.
   */
  lemma CapacityKeepsQuotient(l: seq<Item>, m: nat, pinned: Item -> bool, keep: nat)
    requires forall i, j :: 0 <= i < j < |l| ==> l[i].id != l[j].id
    requires DistinctImportances(UnpinnedPairs(l, pinned))
    requires m > 0 && keep > 0 && |UnpinnedPairs(l, pinned)| * m > keep
    ensures var all := UnpinnedPairs(l, pinned);
            |IdsOf(all) - Evicted(UnpinnedPairs(Repeat(l, m), pinned), keep)| == keep / m
  {
    var all := UnpinnedPairs(l, pinned);
    UnpinnedDistinct(l, pinned);
    PairsOfRepeat(l, m, pinned);
    RepeatLength(all, m);
    hide *;
    assert m * |all| == |all| * m;
    EvictingPass(all, m, keep, Repeat(all, m));
    SortedLength(Repeat(all, m));
    PassKeeps(all, m, keep, InsertionSort(Repeat(all, m)), Evicted(Repeat(all, m), keep));
  }

  lemma SortedLength(ps: seq<Pair>)
    ensures |InsertionSort(ps)| == |ps|
  {
  }

  lemma TooFew(survivors: nat, m: nat, n: nat, keep: nat)
    requires m > 1 && survivors * m <= keep < n * m && keep > 0
    ensures survivors < Min(n, keep)
  {
    if survivors >= n {
      MulMonotone(n, survivors, m);
    }
    MulMonotone(2, m, survivors);
  }

  /** Keep 2 of 2 items whose listing came out twice: only one survives. */
  lemma CapacityOverDeletes(a: Item, b: Item, pinned: Item -> bool)
    requires a.id != b.id && !pinned(a) && !pinned(b)
    ensures var all := UnpinnedPairs([a, b], pinned);
            |IdsOf(all)| == 2 && |IdsOf(all) - Evicted(UnpinnedPairs(Repeat([a, b], 2), pinned), 2)| < 2
  {
    assert [a, b][0].id != [a, b][1].id;
    CapacityKeepsIff([a, b], 2, pinned, 2);
    TwoPairs(a, b, pinned);
    hide UnpinnedPairs, Evicted;
  }

  lemma TwoPairs(a: Item, b: Item, pinned: Item -> bool)
    requires !pinned(a) && !pinned(b)
    ensures |UnpinnedPairs([a, b], pinned)| == 2
  {
    OnePair(a, pinned);
    OnePair(b, pinned);
    hide UnpinnedPairs;
    PairsOfConcat([a], [b], pinned);
    assert [a, b] == [a] + [b];
  }

  lemma OnePair(a: Item, pinned: Item -> bool)
    requires !pinned(a)
    ensures |UnpinnedPairs([a], pinned)| == 1
  {
    assert [a][..0] == [];
  }
}
