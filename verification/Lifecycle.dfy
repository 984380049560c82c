/**
 * The lifecycle passes over what the paging loop really returns: when forgetting keeps
 * what it should and when consolidation promotes once, in terms of the tiers' page counts.
 */
module Lifecycle {
  import opened Types
  import opened Listing
  import opened Ordering
  import opened Rounds
  import opened PagedLoop
  import opened CycledListing
  import opened Stats
  import opened Forget
  import opened ForgetProofs
  import opened Consolidation
  import opened ConsolidationProofs
  import opened ConsolidationExact
  import opened ConsolidationRuns

  lemma ListedIdsDistinct(l: seq<Item>, items: Items, admits: Item -> bool)
    requires IsListing(l, items, admits)
    ensures forall i, j :: 0 <= i < j < |l| ==> l[i].id != l[j].id
  {
    forall i, j | 0 <= i < j < |l|
      ensures l[i].id != l[j].id
    {
      assert l[i] in l && l[j] in l;
      assert ItemPrecedes(l[i], l[j]);
      PrecedesAsymmetric(KeyOf(l[i]), KeyOf(l[j]));
    }
  }

  // ----- Forgetting -----

  /**
   * Forgetting by capacity keeps exactly min(n, keep) of a tier's n unpinned listed items if and
   * only if every tier's page count divides this tier's, or all copies of them fit within `keep`.
   * It never keeps more, and what it keeps is at least as important as what it removes.
   */
  lemma ForgetKeepsIff(tiers: Tiers, admits: Item -> bool, pinned: Item -> bool, keep: nat,
                       out: ItemLists, rounds: nat, kind: Kind)
    requires WellFormedTiers(tiers) && kind in tiers && keep > 0
    requires CycledListings(out, Listings(tiers, admits), 200, rounds)
    ensures kind in out
    ensures var ls := Listings(tiers, admits);
            var all := UnpinnedPairs(ls[kind], pinned);
            var gone := Evicted(UnpinnedPairs(out[kind], pinned), keep);
            && (|IdsOf(all) - gone| == Min(|all|, keep) <==>
                  || CommonMultiple(PageCount(|ls[kind]|, 200), PageCounts(ls, 200))
                  || |all| * Copies(ls, 200, rounds, kind) <= keep)
            && |IdsOf(all)| == |all| && gone <= IdsOf(all)
            && |IdsOf(all) - gone| <= Min(|all|, keep)
            && forall p, q :: p in all && q in all && p.id in gone && q.id !in gone ==> p.imp <= q.imp
  {
    var ls := Listings(tiers, admits);
    CopiesOf(out, ls, 200, rounds, kind);
    ListedIdsDistinct(ls[kind], tiers[kind], admits);
    hide CycledListings, IsListing, Copies;
    CapacityKeepsIff(ls[kind], Copies(ls, 200, rounds, kind), pinned, keep);
  }

  // ----- Statistics -----

  /** The scoped count is right if and only if the tier is empty or every page count divides its own. */
  lemma StatsCountIff(tiers: Tiers, admits: Item -> bool, out: ItemLists, rounds: nat, kind: Kind, now: Time,
                      st: Stats, reported: Stats)
    requires WellFormedTiers(tiers) && kind in tiers
    requires CycledListings(out, Listings(tiers, admits), 200, rounds)
    requires Summarises(st, Listings(tiers, admits)[kind], now) && kind in out && Summarises(reported, out[kind], now)
    ensures var ls := Listings(tiers, admits);
            reported.count == st.count <==>
              ls[kind] == [] || CommonMultiple(PageCount(|ls[kind]|, 200), PageCounts(ls, 200))
    ensures reported.avgImportance == st.avgImportance && reported.oldestAge == st.oldestAge
  {
    var ls := Listings(tiers, admits);
    var m := Copies(ls, 200, rounds, kind);
    CopiesOf(out, ls, 200, rounds, kind);
    hide CycledListings, Listings, Copies, Summarises;
    CycledStats(ls[kind], m, now, st, reported);
    SameProduct(m, st.count);
    assert st.count == |ls[kind]| by { CountIsLength(st, ls[kind], now); }
  }

  lemma CountIsLength(st: Stats, l: seq<Item>, now: Time)
    requires Summarises(st, l, now)
    ensures st.count == |l|
  {
  }

  lemma SameProduct(m: nat, n: int)
    requires m >= 1
    ensures m * n == n <==> n == 0 || m == 1
  {
    if m > 1 {
      assert m * n - n == (m - 1) * n;
    }
  }

  // ----- Consolidation -----

  lemma ListedFromSnapshot(l: seq<Item>, w: World, admits: Item -> bool)
    requires IsListing(l, w.working, admits)
    ensures FromSnapshot(l, w)
  {
    forall i | 0 <= i < |l|
      ensures l[i].id in w.working && w.working[l[i].id] == l[i]
    {
      assert l[i] in l;
    }
  }

  lemma SnapshotOfRepeat(l: seq<Item>, m: nat, w: World)
    requires FromSnapshot(l, w) && m >= 1
    ensures FromSnapshot(Repeat(l, m), w)
  {
    RepeatElements(l, m);
    var r := Repeat(l, m);
    forall i | 0 <= i < |r|
      ensures r[i].id in w.working && w.working[r[i].id] == r[i]
    {
      assert r[i] in r && r[i] in l;
    }
  }

  ghost predicate ListsUncounted(w: World, l: seq<Item>, opts: ConsolidateOptions, now: Time)
  {
    exists i :: 0 <= i < |l| && Uncounted(w, l[i], opts, now)
  }

  /** In `m > 1` copies of a list every element stands at two places. */
  lemma TwoCopies(l: seq<Item>, m: nat, i: nat) returns (a: nat, b: nat)
    requires m > 1 && i < |l|
    ensures a < b < |Repeat(l, m)| && Repeat(l, m)[a] == Repeat(l, m)[b] == l[i]
  {
    var before := Repeat(l, m - 1);
    RepeatElements(l, m - 1);
    assert Repeat(l, m) == before + l;
    hide Repeat;
    assert l[i] in before;
    a :| 0 <= a < |before| && before[a] == l[i];
    b := |before| + i;
  }

  lemma RepeatsUncountedIff(l: seq<Item>, m: nat, w: World, opts: ConsolidateOptions, now: Time)
    requires m >= 1 && forall i, j :: 0 <= i < j < |l| ==> l[i].id != l[j].id
    ensures RepeatsUncounted(w, Repeat(l, m), opts, now) <==> m > 1 && ListsUncounted(w, l, opts, now)
  {
    var r := Repeat(l, m);
    hide Uncounted, Repeat;
    RepeatElements(l, m);
    RepeatOnce(l, m);
    if RepeatsUncounted(w, r, opts, now) {
      var i, j :| 0 <= i < j < |r| && r[i].id == r[j].id && Uncounted(w, r[i], opts, now);
      assert r[i] in r;
      var k :| 0 <= k < |l| && l[k] == r[i];
    }
    if m > 1 && ListsUncounted(w, l, opts, now) {
      var i :| 0 <= i < |l| && Uncounted(w, l[i], opts, now);
      var a, b := TwoCopies(l, m, i);
      assert Uncounted(w, r[a], opts, now) && r[a].id == r[b].id;
    }
  }

  /**
   * A consolidation whose backend calls succeed promotes no item twice if and only if nothing in the
   * listing it got from the paging loop is chosen again. Where no negative count stands in a shared map,
   * that is: if every tier's page count divides the working tier's, or no ripe item without metadata map
   * or with a negative count is listed.
   */
  lemma ConsolidatePromotesOnceIff(w: World, tiers: Tiers, admits: Item -> bool, out: ItemLists, rounds: nat,
                                   opts: ConsolidateOptions, now: Time, mint: nat -> string, backend: Backend)
    requires ValidWorld(w) && AllOk(backend)
    requires WellFormedTiers(tiers) && Working in tiers && tiers[Working] == w.working
    requires CycledListings(out, Listings(tiers, admits), 200, rounds)
    ensures Working in out
    ensures var ls := Listings(tiers, admits);
            var once := Distinct(Promote(w, out[Working], opts, now, mint, backend, []).promoted);
            && (once <==> !ChoosesTwice(w, out[Working], opts, now))
            && (OwnNegatives(w) ==>
                  (once <==>
                     || CommonMultiple(PageCount(|ls[Working]|, 200), PageCounts(ls, 200))
                     || !ListsUncounted(w, ls[Working], opts, now)))
  {
    var ls := Listings(tiers, admits);
    var l, m := ls[Working], Copies(ls, 200, rounds, Working);
    CopiesOf(out, ls, 200, rounds, Working);
    ListedIdsDistinct(l, tiers[Working], admits);
    ListedFromSnapshot(l, w, admits);
    hide *;
    SnapshotOfRepeat(l, m, w);
    PromotedOnceIff(w, out[Working], opts, now, mint, backend);
    if OwnNegatives(w) {
      RepeatsUncountedIff(l, m, w, opts, now);
      ChoosesTwiceIff(w, out[Working], opts, now);
    }
  }

  /**
   * Which items a successful consolidation promotes: those admitted, at or above the threshold, old enough and not
   * counted as promoted yet. This is exact for every item without metadata map or with a map of its own.
   */
  lemma ConsolidatePromotesIff(w: World, tiers: Tiers, admits: Item -> bool, out: ItemLists, rounds: nat,
                               opts: ConsolidateOptions, now: Time, mint: nat -> string, backend: Backend, it: Item)
    requires ValidWorld(w) && WellFormedTiers(tiers) && Working in tiers && tiers[Working] == w.working
    requires CycledListings(out, Listings(tiers, admits), 200, rounds)
    requires Working in out && Promote(w, out[Working], opts, now, mint, backend, []).failure == Nothing
    requires it.id in w.working && w.working[it.id] == it && (it.meta.NilMeta? || OwnMap(w, it))
    ensures it.id in Promote(w, out[Working], opts, now, mint, backend, []).promoted <==>
            && admits(it)
            && it.importance >= (if opts.threshold <= 0.0 then 0.7 else opts.threshold)
            && (opts.minAge > 0 ==> now - it.createdAt >= opts.minAge)
            && PromotionCount(w.heap, it) < 1
  {
    var ls := Listings(tiers, admits);
    var l, m := ls[Working], Copies(ls, 200, rounds, Working);
    assert IsListing(l, tiers[Working], admits);
    assert it in l <==> admits(it);
    CopiesOf(out, ls, 200, rounds, Working);
    ListedFromSnapshot(l, w, admits);
    hide *;
    RepeatElements(l, m);
    SnapshotOfRepeat(l, m, w);
    PromotedIff(w, out[Working], opts, now, mint, backend, it);
  }

  /** A metadata predicate that does not look at the keys a promotion writes. */
  ghost predicate IgnoresStamps(disabled: Metadata -> bool)
  {
    forall m: Metadata, m': Metadata ::
      m - {CONSOLIDATED_AT, PROMOTION_COUNT} == m' - {CONSOLIDATED_AT, PROMOTION_COUNT} ==> disabled(m) == disabled(m')
  }

  /** The listing filter of consolidation: everything that is not disabled. */
  ghost predicate AdmitsEnabled(admits: Item -> bool, heap: Heap, disabled: Metadata -> bool)
  {
    forall it :: admits(it) <==> !disabled(MetaOf(heap, it.meta))
  }

  lemma SameAdmitted(w: World, w': World, admits: Item -> bool, admits': Item -> bool, disabled: Metadata -> bool,
                     id: string)
    requires Evolved(w, w') && IgnoresStamps(disabled) && id in w.working
    requires AdmitsEnabled(admits, w.heap, disabled) && AdmitsEnabled(admits', w'.heap, disabled)
    ensures admits(w.working[id]) <==> admits'(w'.working[id])
  {
    assert OnlyStamped(w, w', id);
    assert Unstamped(w.heap, w.working[id].meta) == Unstamped(w'.heap, w'.working[id].meta);
  }

  /** What the paging loop lists of the working tier. */
  ghost predicate ListsWorking(list: seq<Item>, w: World, admits: Item -> bool)
  {
    forall x :: x in list <==> x.id in w.working && w.working[x.id] == x && admits(x)
  }

  lemma WorkingListed(w: World, tiers: Tiers, admits: Item -> bool, out: ItemLists, rounds: nat)
    requires WellFormedTiers(tiers) && Working in tiers && tiers[Working] == w.working
    requires CycledListings(out, Listings(tiers, admits), 200, rounds)
    ensures Working in out && ListsWorking(out[Working], w, admits) && FromSnapshot(out[Working], w)
  {
    hide *;
    CandidatesExist(tiers, admits, out, rounds, Working);
    IsListed(out[Working], w, admits);
  }

  lemma IsListed(list: seq<Item>, w: World, admits: Item -> bool)
    requires forall x :: x in list <==> x.id in w.working && w.working[x.id] == x && admits(x)
    ensures ListsWorking(list, w, admits) && FromSnapshot(list, w)
  {
    forall i | 0 <= i < |list|
      ensures list[i].id in w.working && w.working[list[i].id] == list[i]
    {
      assert list[i] in list;
    }
  }

  lemma SecondListingWithin(w: World, w': World, admits: Item -> bool, admits': Item -> bool,
                            disabled: Metadata -> bool, list: seq<Item>, list': seq<Item>)
    requires ValidWorld(w) && Evolved(w, w') && IgnoresStamps(disabled)
    requires AdmitsEnabled(admits, w.heap, disabled) && AdmitsEnabled(admits', w'.heap, disabled)
    requires ListsWorking(list, w, admits) && ListsWorking(list', w', admits')
    ensures Within(list', list) && Within(list, list')
  {
    forall i | 0 <= i < |list'|
      ensures Lists(list, list'[i].id)
    {
      assert list'[i] in list';
      WorkingKeys(w, w', list'[i].id);
      SameAdmitted(w, w', admits, admits', disabled, list'[i].id);
      assert w.working[list'[i].id] in list;
    }
    forall i | 0 <= i < |list|
      ensures Lists(list', list[i].id)
    {
      assert list[i] in list;
      WorkingKeys(w, w', list[i].id);
      SameAdmitted(w, w', admits, admits', disabled, list[i].id);
      assert w'.working[list[i].id] in list';
    }
  }

  lemma WorkingKeys(w: World, w': World, id: string)
    requires ValidWorld(w) && Evolved(w, w')
    ensures id in w.working <==> id in w'.working
    ensures id in w.working ==> w.working[id].id == id && w'.working[id].id == id
  {
  }

  /**
   * Consolidating twice with the same options and clock: after a first call that succeeds, the second
   * promotes and changes nothing if and only if no listed count was too negative for the first call's
   * stamps to make up for it. What either call lists comes from the paging loop, repeats included.
   */
  lemma SecondConsolidateIdleIff(w: World, tiers: Tiers, tiers': Tiers, admits: Item -> bool, admits': Item -> bool,
                                 disabled: Metadata -> bool, out: ItemLists, out': ItemLists,
                                 rounds: nat, rounds': nat, opts: ConsolidateOptions, now: Time,
                                 mint: nat -> string, mint': nat -> string, backend: Backend, backend': Backend)
    requires ValidWorld(w) && IgnoresStamps(disabled)
    requires WellFormedTiers(tiers) && Working in tiers && tiers[Working] == w.working
    requires CycledListings(out, Listings(tiers, admits), 200, rounds) && AdmitsEnabled(admits, w.heap, disabled)
    requires Working in out && Promote(w, out[Working], opts, now, mint, backend, []).failure == Nothing
    requires var w' := Promote(w, out[Working], opts, now, mint, backend, []).world;
             && WellFormedTiers(tiers') && Working in tiers' && tiers'[Working] == w'.working
             && CycledListings(out', Listings(tiers', admits'), 200, rounds')
             && AdmitsEnabled(admits', w'.heap, disabled)
    ensures Working in out'
    ensures var w' := Promote(w, out[Working], opts, now, mint, backend, []).world;
            var idle := Promote(w', out'[Working], opts, now, mint', backend', []) == Outcome(w', [], Nothing);
            && (idle <==> !AnyStaysUncounted(w, out[Working], opts, now))
            && (NonNegativeCounts(w) ==> idle)
  {
    hide *;
    var w' := Promote(w, out[Working], opts, now, mint, backend, []).world;
    WorkingListed(w, tiers, admits, out, rounds);
    WorkingListed(w', tiers', admits', out', rounds');
    CallOnlyStamps(w, out[Working], opts, now, mint, backend, []);
    SecondListingWithin(w, w', admits, admits', disabled, out[Working], out'[Working]);
    SecondCallIdleIff(w, out[Working], out'[Working], opts, now, mint, mint', backend, backend');
    if NonNegativeCounts(w) {
      AllCounted(w, out[Working], opts, now);
    }
  }
}
