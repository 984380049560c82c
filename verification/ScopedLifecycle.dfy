/** What scoped listings and scoped forgetting can reach (memory/scoped_manager_local.go, scoped_lifecycle.go). */
module ScopedLifecycle {
  import opened Types
  import opened Ordering
  import opened Listing
  import opened PagedLoop
  import opened Forget
  import opened ForgetProofs
  import opened Scoping

  /** `admits` is the filter `f`, applied with the metadata as it is in `heap`. */
  ghost predicate FiltersBy(admits: Item -> bool, heap: Heap, f: ListFilter, rd: Readers)
  {
    forall it :: admits(it) <==> Admitted(heap, it, f, rd)
  }

  /** The filter with nothing set, which leaves out disabled items. */
  const DEFAULT_FILTER := ListFilter(false, false, "", "", Scope("", "", ""), 0.0, [])

  lemma PageItemsAreListed(l: seq<Item>, n: nat, cursor: CursorText, x: Item)
    requires n > 0 && x in PageFor(l, n, cursor).items
    ensures x in l
  {
  }

  /**
   * Every item on every page of a scoped listing, whatever the cursor, is stored in that tier, belongs to the
   * scope and, unless asked for, is not disabled.
   */
  lemma ScopedPagesAreConfined(tiers: Tiers, admits: Item -> bool, heap: Heap, f: ListFilter, s: Scope, rd: Readers,
                               n: nat, cursors: Cursors, kind: Kind, x: Item)
    requires WellFormedTiers(tiers) && kind in tiers && n > 0
    requires !IsZero(s) && FiltersBy(admits, heap, ScopedFilter(f, s), rd)
    requires x in PageFor(Listings(tiers, admits)[kind], n, CursorOf(cursors, kind)).items
    ensures x.id in tiers[kind] && tiers[kind][x.id] == x
    ensures rd.matches(s, ReadScope(heap, x))
    ensures !f.includeDisabled ==> !rd.disabled(MetaOf(heap, x.meta))
  {
    var l := Listings(tiers, admits)[kind];
    assert IsListing(l, tiers[kind], admits);
    hide Listings, PageFor, Admitted;
    PageItemsAreListed(l, n, CursorOf(cursors, kind), x);
    ScopedListingIsConfined(heap, x, f, s, rd);
  }

  /**
   * Scoped forgetting, by any strategy and over the listing the paging loop returns, removes no pinned item,
   * no disabled item and, under a non-zero scope, no item outside the scope.
   */
  lemma ScopedForgetIsConfined(tiers: Tiers, admits: Item -> bool, pinned: Item -> bool, heap: Heap, s: Scope,
                               rd: Readers, opts: ForgetOptions, now: Time, out: ItemLists, rounds: nat, kind: Kind,
                               id: string)
    requires WellFormedTiers(tiers) && kind in tiers
    requires FiltersBy(admits, heap, ScopedFilter(DEFAULT_FILTER, s), rd)
    requires forall it :: pinned(it) <==> rd.pinned(MetaOf(heap, it.meta))
    requires CycledListings(out, Listings(tiers, admits), 200, rounds)
    requires kind in out && id in Victims(out[kind], pinned, opts, now)
    ensures id in tiers[kind]
    ensures var m := MetaOf(heap, tiers[kind][id].meta);
            !rd.pinned(m) && !rd.disabled(m) && (IsZero(s) || rd.matches(s, ReadScope(heap, tiers[kind][id])))
  {
    hide CycledListings, Listings, Victims, WellFormedTiers;
    VictimsAreAdmittedAndUnpinned(tiers, admits, pinned, opts, now, out, rounds, kind, id);
    assert Admitted(heap, tiers[kind][id], ScopedFilter(DEFAULT_FILTER, s), rd);
  }

  /** Exactly which items scoped forgetting by importance or age removes, in the items' own fields. */
  lemma ScopedForgetIsExact(tiers: Tiers, admits: Item -> bool, pinned: Item -> bool, heap: Heap, s: Scope,
                            rd: Readers, opts: ForgetOptions, now: Time, out: ItemLists, rounds: nat, kind: Kind,
                            id: string)
    requires WellFormedTiers(tiers) && kind in tiers && id in tiers[kind]
    requires FiltersBy(admits, heap, ScopedFilter(DEFAULT_FILTER, s), rd)
    requires forall it :: pinned(it) <==> rd.pinned(MetaOf(heap, it.meta))
    requires CycledListings(out, Listings(tiers, admits), 200, rounds)
    requires opts.strategy.ByImportance? || opts.strategy.ByAge?
    ensures kind in out
    ensures var it, m := tiers[kind][id], MetaOf(heap, tiers[kind][id].meta);
            id in Victims(out[kind], pinned, opts, now) <==>
            && !rd.pinned(m) && !rd.disabled(m) && (s == Scope("", "", "") || rd.matches(s, ScopeIn(m)))
            && (if opts.strategy.ByImportance? then it.importance < opts.threshold
                else now - it.createdAt > opts.maxAge)
  {
    hide CycledListings, Listings, Victims, WellFormedTiers;
    MatchingIsExact(tiers, admits, pinned, opts, now, out, rounds, kind, id);
    assert admits(tiers[kind][id]) <==> Admitted(heap, tiers[kind][id], ScopedFilter(DEFAULT_FILTER, s), rd);
  }

  function KeepItems(l: seq<Item>, keep: Item -> bool): seq<Item>
  {
    if l == [] then []
    else KeepItems(l[..|l| - 1], keep) + if keep(l[|l| - 1]) then [l[|l| - 1]] else []
  }

  lemma {:induction false} KeptItems(l: seq<Item>, keep: Item -> bool)
    requires StrictlySorted(l, ItemPrecedes)
    ensures StrictlySorted(KeepItems(l, keep), ItemPrecedes)
    ensures forall x :: x in KeepItems(l, keep) <==> x in l && keep(x)
  {
    if l != [] {
      var n := |l| - 1;
      KeptItems(l[..n], keep);
      assert l == l[..n] + [l[n]];
      var kept := KeepItems(l[..n], keep);
      forall i | 0 <= i < |kept|
        ensures ItemPrecedes(kept[i], l[n])
      {
        assert kept[i] in kept && kept[i] in l[..n];
      }
    }
  }

  /** The scoped listing of a tier is its plain listing cut to the scope, in the same order. */
  lemma ScopedListingIsCut(l: seq<Item>, l': seq<Item>, items: Items, admits: Item -> bool, admits': Item -> bool,
                           heap: Heap, f: ListFilter, s: Scope, rd: Readers)
    requires s != Scope("", "", "") && FiltersBy(admits', heap, ScopedFilter(f, s), rd)
    requires FiltersBy(admits, heap, f.(scope := Scope("", "", "")), rd)
    requires IsListing(l, items, admits) && IsListing(l', items, admits')
    ensures l' == KeepItems(l, it => rd.matches(s, ReadScope(heap, it)))
  {
    var keep := it => rd.matches(s, ReadScope(heap, it));
    KeptItems(l, keep);
    hide Admitted, KeepItems;
    forall x
      ensures admits'(x) <==> admits(x) && keep(x)
    {
      ScopedFilterCuts(heap, x, f, s, rd);
    }
    hide FiltersBy;
    assert IsListing(KeepItems(l, keep), items, admits');
    ListingUnique(KeepItems(l, keep), l', items, admits');
  }
}
