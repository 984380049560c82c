/** Scoped forgetting (memory/scoped_lifecycle.go). */
module Forget {
  import opened Types
  import opened Ordering
  import opened Rounds
  import opened PagedLoop
  import opened CycledListing
  import opened PairSort

  datatype Strategy = ByImportance | ByAge | ByCapacity | UnknownStrategy

  datatype ForgetOptions = ForgetOptions(strategy: Strategy, threshold: real, maxAge: int, keep: int)

  // ----- Which items a strategy selects from a list of candidates -----

  /** Below the importance threshold, or older than the maximum age. */
  predicate Expendable(it: Item, opts: ForgetOptions, now: Time)
  {
    match opts.strategy
    case ByImportance => it.importance < opts.threshold
    case ByAge => now - it.createdAt > opts.maxAge
    case _ => false
  }

  ghost function Matching(c: seq<Item>, pinned: Item -> bool, opts: ForgetOptions, now: Time): set<string>
  {
    set x | x in c && !pinned(x) && Expendable(x, opts, now) :: x.id
  }

  function UnpinnedPairs(c: seq<Item>, pinned: Item -> bool): seq<Pair>
  {
    if c == [] then []
    else
      var it := c[|c| - 1];
      UnpinnedPairs(c[..|c| - 1], pinned) + (if pinned(it) then [] else [Pair(it.id, it.importance)])
  }

  ghost function IdsOf(ps: seq<Pair>): set<string>
  {
    set p | p in ps :: p.id
  }

  /** All but the `keep` most important pairs. */
  ghost function Evicted(ps: seq<Pair>, keep: int): set<string>
  {
    if keep <= 0 || |ps| <= keep then {} else IdsOf(InsertionSort(ps)[..|ps| - keep])
  }

  ghost function Victims(c: seq<Item>, pinned: Item -> bool, opts: ForgetOptions, now: Time): set<string>
  {
    if opts.strategy.ByCapacity? then Evicted(UnpinnedPairs(c, pinned), opts.keep) else Matching(c, pinned, opts, now)
  }

  predicate Rejected(opts: ForgetOptions)
  {
    opts.strategy.UnknownStrategy? || (opts.strategy.ByAge? && opts.maxAge <= 0)
  }

  // ----- What goes and what stays, in the items' own fields -----

  /**
   * Nothing is changed, and only admitted items that are not pinned are removed: by importance those below the
   * threshold and no others, by age those older than the limit and no others, by capacity none without a limit.
   * With one, at most that many admitted items that are not pinned stay, and those at least as important as what goes.
   */
  ghost predicate ForgetInFields(before: Items, after: Items, admits: Item -> bool, pinned: Item -> bool,
                                 opts: ForgetOptions, now: Time)
  {
    && (forall id :: id in after ==> id in before && after[id] == before[id])
    && (forall id :: id in before && id !in after ==> admits(before[id]) && !pinned(before[id]))
    && (opts.strategy.ByImportance? ==>
          forall id :: id in before && admits(before[id]) && !pinned(before[id]) ==>
            (id in after <==> before[id].importance >= opts.threshold))
    && (opts.strategy.ByAge? ==>
          forall id :: id in before && admits(before[id]) && !pinned(before[id]) ==>
            (id in after <==> now - before[id].createdAt <= opts.maxAge))
    && (opts.strategy.ByCapacity? && opts.keep <= 0 ==> after == before)
    && (opts.strategy.ByCapacity? && opts.keep > 0 ==>
          && |set id | id in after && admits(after[id]) && !pinned(after[id])| <= opts.keep
          && forall x, y :: x in before && x !in after && y in after && admits(after[y]) && !pinned(after[y]) ==>
               before[x].importance <= after[y].importance)
  }

  lemma VictimsInFields(items: Items, c: seq<Item>, admits: Item -> bool, pinned: Item -> bool, opts: ForgetOptions,
                        now: Time)
    requires WellFormed(items)
    requires forall x :: x in c <==> x.id in items && items[x.id] == x && admits(x)
    ensures ForgetInFields(items, items - Victims(c, pinned, opts, now), admits, pinned, opts, now)
    ensures (items.Keys - (items - Victims(c, pinned, opts, now)).Keys) == Victims(c, pinned, opts, now)
  {
    if opts.strategy.ByCapacity? {
      EvictedInFields(items, c, admits, pinned, opts, now);
    } else {
      assert forall id :: id in items ==> items[id].id == id;
    }
  }

  lemma EvictedInFields(items: Items, c: seq<Item>, admits: Item -> bool, pinned: Item -> bool, opts: ForgetOptions,
                        now: Time)
    requires WellFormed(items) && opts.strategy.ByCapacity?
    requires forall x :: x in c <==> x.id in items && items[x.id] == x && admits(x)
    ensures ForgetInFields(items, items - Victims(c, pinned, opts, now), admits, pinned, opts, now)
    ensures (items.Keys - (items - Victims(c, pinned, opts, now)).Keys) == Victims(c, pinned, opts, now)
  {
    var gone := Victims(c, pinned, opts, now);
    NoneEvicted(UnpinnedPairs(c, pinned), opts.keep);
    hide Evicted, UnpinnedPairs;
    forall id | id in gone
      ensures id in items && admits(items[id]) && !pinned(items[id])
    {
      var x := EvictedIsCandidate(c, pinned, opts.keep, id);
    }
    var after := items - gone;
    assert opts.keep <= 0 ==> after == items;
    if opts.keep > 0 {
      var stay := set id | id in after && admits(after[id]) && !pinned(after[id]);
      assert forall id :: id in stay ==> items[id] in c && items[id].id == id;
      forall x, y | x in gone && y in stay
        ensures items[x].importance <= items[y].importance
      {
        var x' := EvictedIsLeast(c, pinned, opts.keep, x, items[y]);
      }
      SurvivorsFit(c, pinned, opts.keep, stay, items);
    }
  }

  /** An evicted candidate is no more important than one that stays. */
  lemma EvictedIsLeast(c: seq<Item>, pinned: Item -> bool, keep: int, id: string, y: Item) returns (x: Item)
    requires id in Evicted(UnpinnedPairs(c, pinned), keep)
    requires y in c && !pinned(y) && y.id !in Evicted(UnpinnedPairs(c, pinned), keep)
    ensures x in c && !pinned(x) && x.id == id && x.importance <= y.importance
  {
    var ps := UnpinnedPairs(c, pinned);
    var sorted, e := InsertionSort(ps), |ps| - keep;
    PairsAreCandidates(c, pinned);
    InsertionSortIsStableSort(ps);
    SortedPairs(ps);
    var q := Pair(y.id, y.importance);
    assert q in ps && q in sorted;
    var i :| 0 <= i < e && sorted[i].id == id;
    var j :| 0 <= j < |sorted| && sorted[j] == q;
    assert sorted[i] in sorted && sorted[i] in ps;
    hide UnpinnedPairs, InsertionSort, Sorted;
    assert e <= j;
    x :| x in c && !pinned(x) && sorted[i] == Pair(x.id, x.importance);
    assert !Cheaper(sorted[j], sorted[i]);
  }

  /** No more than `keep` candidates stay. */
  lemma SurvivorsFit(c: seq<Item>, pinned: Item -> bool, keep: int, stay: set<string>, items: Items)
    requires keep > 0 && stay <= items.Keys
    requires forall id :: id in stay ==>
               && items[id] in c && items[id].id == id && !pinned(items[id])
               && id !in Evicted(UnpinnedPairs(c, pinned), keep)
    ensures |stay| <= keep
  {
    var ps := UnpinnedPairs(c, pinned);
    var sorted := InsertionSort(ps);
    var e := if |ps| <= keep then 0 else |ps| - keep;
    PairsAreCandidates(c, pinned);
    SortedPairs(ps);
    hide UnpinnedPairs, InsertionSort;
    forall id | id in stay
      ensures id in IdsOf(sorted[e..])
    {
      var q := Pair(id, items[id].importance);
      assert q in ps && q in sorted;
      var j :| 0 <= j < |sorted| && sorted[j] == q;
      assert e <= j;
      assert sorted[e..][j - e] == q;
    }
    hide Evicted;
    FewIds(sorted[e..]);
    SubsetSize(stay, IdsOf(sorted[e..]));
  }

  lemma {:induction false} FewIds(ps: seq<Pair>)
    ensures |IdsOf(ps)| <= |ps|
  {
    if ps == [] {
      assert IdsOf(ps) == {};
    } else {
      var n := |ps| - 1;
      FewIds(ps[..n]);
      assert ps == ps[..n] + [ps[n]];
      IdsNext(ps[..n], ps[n]);
    }
  }

  lemma SubsetSize(a: set<string>, b: set<string>)
    requires a <= b
    ensures |a| <= |b|
  {
    assert b == a + (b - a);
  }

  /** One tier forgets, the others keep all they have, and the removed items are counted. */
  ghost predicate TierForgets(before: Tiers, after: Tiers, kind: Kind, admits: Item -> bool, pinned: Item -> bool,
                              opts: ForgetOptions, now: Time, count: nat)
  {
    && kind in before && after.Keys == before.Keys
    && (forall k :: k in before && k != kind ==> after[k] == before[k])
    && ForgetInFields(before[kind], after[kind], admits, pinned, opts, now)
    && count == |before[kind].Keys - after[kind].Keys|
  }

  lemma VictimsAreForgotten(tiers: Tiers, kind: Kind, c: seq<Item>, admits: Item -> bool, pinned: Item -> bool,
                            opts: ForgetOptions, now: Time)
    requires WellFormedTiers(tiers) && kind in tiers
    requires forall x :: x in c <==> x.id in tiers[kind] && tiers[kind][x.id] == x && admits(x)
    ensures var gone := Victims(c, pinned, opts, now);
            TierForgets(tiers, tiers[kind := tiers[kind] - gone], kind, admits, pinned, opts, now, |gone|)
  {
    assert WellFormed(tiers[kind]);
    hide *;
    VictimsInFields(tiers[kind], c, admits, pinned, opts, now);
    OnlyThisTier(tiers, kind, Victims(c, pinned, opts, now), admits, pinned, opts, now);
  }

  lemma OnlyThisTier(tiers: Tiers, kind: Kind, gone: set<string>, admits: Item -> bool, pinned: Item -> bool,
                     opts: ForgetOptions, now: Time)
    requires kind in tiers && tiers[kind].Keys - (tiers[kind] - gone).Keys == gone
    requires ForgetInFields(tiers[kind], tiers[kind] - gone, admits, pinned, opts, now)
    ensures TierForgets(tiers, tiers[kind := tiers[kind] - gone], kind, admits, pinned, opts, now, |gone|)
  {
    hide ForgetInFields;
  }

  lemma NoneEvicted(ps: seq<Pair>, keep: int)
    ensures keep <= 0 ==> Evicted(ps, keep) == {}
  {
  }

  lemma EvictedIsCandidate(c: seq<Item>, pinned: Item -> bool, keep: int, id: string) returns (x: Item)
    requires id in Evicted(UnpinnedPairs(c, pinned), keep)
    ensures x in c && !pinned(x) && x.id == id
  {
    var ps := UnpinnedPairs(c, pinned);
    InsertionSortIsStableSort(ps);
    SameElements(InsertionSort(ps), ps);
    var p :| p in InsertionSort(ps)[..|ps| - keep] && p.id == id;
    assert p in ps;
    PairsAreCandidates(c, pinned);
    x :| x in c && !pinned(x) && p == Pair(x.id, x.importance);
  }

  // ----- The operation -----

  class Manager {
    var tiers: Tiers

    ghost predicate Valid()
      reads this
    {
      WellFormedTiers(tiers)
    }

    /** Delete an item; false when the tier or the item does not exist. */
    method Remove(kind: Kind, id: string) returns (ok: bool)
      requires Valid()
      modifies this
      ensures Valid()
      ensures ok <==> kind in old(tiers) && id in old(tiers)[kind]
      ensures tiers == if ok then old(tiers)[kind := old(tiers)[kind] - {id}] else old(tiers)
    {
      ok := kind in tiers && id in tiers[kind];
      if ok {
        tiers := tiers[kind := tiers[kind] - {id}];
      }
    }

    /** The next removal of a pass that has already removed `gone`: repeats of an ID are refused. */
    method RemoveNext(kind: Kind, id: string, count: nat, ghost was: Tiers, ghost gone: set<string>)
      returns (count': nat)
      requires Valid() && kind in was && id in was[kind]
      requires tiers == was[kind := was[kind] - gone] && count == |gone|
      modifies this
      ensures Valid()
      ensures tiers == was[kind := was[kind] - (gone + {id})] && count' == |gone + {id}|
    {
      var ok := Remove(kind, id);
      assert ok <==> id !in gone;
      assert was[kind] - gone - {id} == was[kind] - (gone + {id});
      if !ok {
        assert gone + {id} == gone;
      }
      count' := if ok then count + 1 else count;
    }

    method RemoveMatching(kind: Kind, c: seq<Item>, pinned: Item -> bool, opts: ForgetOptions, now: Time)
      returns (count: nat)
      requires Valid() && kind in tiers
      requires forall x :: x in c ==> x.id in tiers[kind]
      modifies this
      ensures Valid()
      ensures tiers == old(tiers)[kind := old(tiers)[kind] - Matching(c, pinned, opts, now)]
      ensures count == |Matching(c, pinned, opts, now)|
    {
      count := 0;
      assert Matching(c[..0], pinned, opts, now) == {};
      assert tiers[kind] - {} == tiers[kind];
      ghost var was, gone: set<string> := tiers, {};
      for i := 0 to |c|
        invariant Valid()
        invariant gone == Matching(c[..i], pinned, opts, now)
        invariant tiers == was[kind := was[kind] - gone] && count == |gone|
      {
        var it := c[i];
        MatchingNext(c, i, pinned, opts, now);
        if !pinned(it) && Expendable(it, opts, now) {
          hide Matching;
          count := RemoveNext(kind, it.id, count, was, gone);
          gone := gone + {it.id};
        }
      }
      assert c[..|c|] == c;
    }

    /** Remove the first `toEvict` of the pairs, which are `sorted`. */
    method RemovePairs(kind: Kind, ps: array<Pair>, toEvict: nat, ghost sorted: seq<Pair>) returns (count: nat)
      requires Valid() && kind in tiers && ps[..] == sorted && toEvict <= |sorted|
      requires forall p :: p in sorted ==> p.id in tiers[kind]
      modifies this
      ensures Valid()
      ensures tiers == old(tiers)[kind := old(tiers)[kind] - IdsOf(sorted[..toEvict])]
      ensures count == |IdsOf(sorted[..toEvict])|
    {
      count := 0;
      assert IdsOf(sorted[..0]) == {};
      assert tiers[kind] - {} == tiers[kind];
      ghost var was, gone: set<string> := tiers, {};
      for i := 0 to toEvict
        invariant Valid()
        invariant gone == IdsOf(sorted[..i])
        invariant tiers == was[kind := was[kind] - gone] && count == |gone|
      {
        var p := ps[i];
        assert p == sorted[i] && p in sorted && sorted[..i + 1] == sorted[..i] + [p];
        IdsNext(sorted[..i], p);
        hide IdsOf;
        count := RemoveNext(kind, p.id, count, was, gone);
        gone := gone + {p.id};
      }
    }

    method ForgetByCapacity(kind: Kind, c: seq<Item>, pinned: Item -> bool, keep: int) returns (count: nat)
      requires Valid() && kind in tiers
      requires forall x :: x in c ==> x.id in tiers[kind]
      modifies this
      ensures Valid()
      ensures tiers == old(tiers)[kind := old(tiers)[kind] - Evicted(UnpinnedPairs(c, pinned), keep)]
      ensures count == |Evicted(UnpinnedPairs(c, pinned), keep)|
    {
      assert tiers[kind := tiers[kind] - {}] == tiers by { assert tiers[kind] - {} == tiers[kind]; }
      if keep <= 0 {
        return 0;
      }
      var all := CollectPairs(c, pinned);
      if all.Length <= keep {
        return 0;
      }
      PairsAreCandidates(c, pinned);
      count := EvictPairs(kind, all, keep, UnpinnedPairs(c, pinned));
    }

    method EvictPairs(kind: Kind, all: array<Pair>, keep: nat, ghost ps: seq<Pair>) returns (count: nat)
      requires Valid() && kind in tiers && all[..] == ps && 0 < keep < all.Length
      requires forall p :: p in ps ==> p.id in tiers[kind]
      modifies this, all
      ensures Valid()
      ensures tiers == old(tiers)[kind := old(tiers)[kind] - Evicted(ps, keep)]
      ensures count == |Evicted(ps, keep)|
    {
      SortPairsByImpAsc(all);
      hide IdsOf, Evicted, InsertionSort, WellFormedTiers;
      SortedPairs(ps);
      EvictedHead(ps, keep);
      count := RemovePairs(kind, all, all.Length - keep, InsertionSort(ps));
    }

    /**
     * List every tier, then remove what the strategy selects from this kind's list.
     * Other tiers are untouched, and the count is the number of items removed.
     */
    method ForgetScoped(kind: Kind, admits: Item -> bool, pinned: Item -> bool, opts: ForgetOptions, now: Time)
      returns (r: Result<nat>)
      requires Valid()
      modifies this
      ensures Valid()
      ensures r.Err? <==> opts.strategy == UnknownStrategy || (opts.strategy == ByAge && opts.maxAge <= 0)
      ensures r.Err? || kind !in old(tiers) ==> tiers == old(tiers)
      ensures r.Ok? && kind !in old(tiers) ==> r.value == 0
      ensures r.Ok? && kind in old(tiers) ==>
                exists out, rounds ::
                  && CycledListings(out, Listings(old(tiers), admits), 200, rounds)
                  && var gone := Victims(out[kind], pinned, opts, now);
                  && r.value == |gone|
                  && tiers == old(tiers)[kind := old(tiers)[kind] - gone]
      ensures r.Ok? && kind in old(tiers) ==>
                TierForgets(old(tiers), tiers, kind, admits, pinned, opts, now, r.value)
    {
      hide CycledListings, Victims;
      var out := ListAllPaged(tiers, admits, 200);
      ghost var ls := Listings(tiers, admits);
      ghost var rounds: nat :| CycledListings(out, ls, 200, rounds);
      if Rejected(opts) {
        return Err("forget options");
      }
      ListedKinds(out, ls, 200, rounds);
      if kind !in out {
        return Ok(0);
      }
      CandidatesExist(tiers, admits, out, rounds, kind);
      ghost var was := tiers;
      var count := Apply(kind, out[kind], pinned, opts, now);
      assert CycledListings(out, Listings(was, admits), 200, rounds);
      VictimsAreForgotten(was, kind, out[kind], admits, pinned, opts, now);
      hide TierForgets;
      r := Ok(count);
    }

    method Apply(kind: Kind, c: seq<Item>, pinned: Item -> bool, opts: ForgetOptions, now: Time) returns (count: nat)
      requires Valid() && kind in tiers && !Rejected(opts)
      requires forall x :: x in c ==> x.id in tiers[kind]
      modifies this
      ensures Valid()
      ensures tiers == old(tiers)[kind := old(tiers)[kind] - Victims(c, pinned, opts, now)]
      ensures count == |Victims(c, pinned, opts, now)|
    {
      if opts.strategy.ByCapacity? {
        count := ForgetByCapacity(kind, c, pinned, opts.keep);
      } else {
        count := RemoveMatching(kind, c, pinned, opts, now);
      }
    }
  }

  lemma EvictedHead(ps: seq<Pair>, keep: nat)
    requires 0 < keep < |ps|
    ensures |InsertionSort(ps)| == |ps| && Evicted(ps, keep) == IdsOf(InsertionSort(ps)[..|ps| - keep])
  {
  }

  lemma SortedPairs(ps: seq<Pair>)
    ensures forall p :: p in InsertionSort(ps) <==> p in ps
  {
    InsertionSortIsStableSort(ps);
    SameElements(InsertionSort(ps), ps);
  }

  lemma MatchingNext(c: seq<Item>, i: nat, pinned: Item -> bool, opts: ForgetOptions, now: Time)
    requires i < |c|
    ensures c[i] in c
    ensures Matching(c[..i + 1], pinned, opts, now) == Matching(c[..i], pinned, opts, now) +
            (if !pinned(c[i]) && Expendable(c[i], opts, now) then {c[i].id} else {})
  {
    assert c[..i + 1] == c[..i] + [c[i]];
  }

  lemma IdsNext(ps: seq<Pair>, p: Pair)
    ensures IdsOf(ps + [p]) == IdsOf(ps) + {p.id}
  {
  }

  method CollectPairs(c: seq<Item>, pinned: Item -> bool) returns (all: array<Pair>)
    ensures fresh(all) && all[..] == UnpinnedPairs(c, pinned)
  {
    var ps := [];
    for i := 0 to |c|
      invariant ps == UnpinnedPairs(c[..i], pinned)
    {
      assert c[..i + 1][..i] == c[..i];
      if !pinned(c[i]) {
        ps := ps + [Pair(c[i].id, c[i].importance)];
      }
    }
    assert c[..|c|] == c;
    all := new Pair[|ps|](i requires 0 <= i < |ps| => ps[i]);
  }

  lemma {:induction false} PairsAreCandidates(c: seq<Item>, pinned: Item -> bool)
    ensures forall p :: p in UnpinnedPairs(c, pinned) <==>
              exists x :: x in c && !pinned(x) && p == Pair(x.id, x.importance)
  {
    if c != [] {
      var init, last := c[..|c| - 1], c[|c| - 1];
      assert c == init + [last];
      PairsAreCandidates(init, pinned);
    }
  }

  lemma ListedKinds(out: ItemLists, ls: ItemLists, n: nat, rounds: nat)
    requires n > 0 && CycledListings(out, ls, n, rounds)
    ensures out.Keys == ls.Keys
  {
  }

  /** Every listed candidate is an admitted item of the tier. */
  lemma CandidatesExist(tiers: Tiers, admits: Item -> bool, out: ItemLists, rounds: nat, kind: Kind)
    requires WellFormedTiers(tiers) && kind in tiers
    requires CycledListings(out, Listings(tiers, admits), 200, rounds)
    ensures kind in out
    ensures forall x :: x in out[kind] <==> x.id in tiers[kind] && tiers[kind][x.id] == x && admits(x)
  {
    var ls := Listings(tiers, admits);
    var p := PageCount(|ls[kind]|, 200);
    assert p == PageCounts(ls, 200)[kind];
    LcmIsOwnCount(rounds, PageCounts(ls, 200), kind);
    RepeatElements(ls[kind], rounds / p);
  }
}
