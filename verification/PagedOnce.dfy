/**
 * The paging loop as its comment promises it: a tier that has reached its end is not asked again.
 * It returns every listing exactly once, whatever the page counts are.
 */
module PagedOnce {
  import opened Types
  import opened Listing
  import opened Rounds
  import opened PagedLoop

  /** What a tier has contributed after `r` pages. */
  ghost function Prefix(l: seq<Item>, n: nat, r: nat): seq<Item>
  {
    l[..Min(r * n, |l|)]
  }

  ghost function Collected(ls: ItemLists, n: nat, r: nat): ItemLists
  {
    map k | k in ls :: Prefix(ls[k], n, r)
  }

  /** The tiers that have a page number `r`, and the cursors that select it. */
  ghost function Pending(ls: ItemLists, n: nat, r: nat): Cursors
    requires n > 0
  {
    map k | k in ls && r < PageCount(|ls[k]|, n) :: CursorAt(ls[k], n, r)
  }

  /** No tier has more pages than all tiers together. */
  ghost function Total(counts: Counts): nat
  {
    CountOf(counts, Working) + CountOf(counts, Episodic) + CountOf(counts, Semantic)
  }

  lemma BelowTotal(counts: Counts, k: Kind)
    requires k in counts
    ensures counts[k] <= Total(counts)
  {
    match k
    case Working =>
    case Episodic =>
    case Semantic =>
  }

  lemma NextPrefix(l: seq<Item>, n: nat, r: nat)
    requires n > 0 && Listable(l)
    ensures r < PageCount(|l|, n) ==>
              && Prefix(l, n, r + 1) == Prefix(l, n, r) + PageFor(l, n, CursorAt(l, n, r)).items
              && PageFor(l, n, CursorAt(l, n, r)).next ==
                 (if r + 1 < PageCount(|l|, n) then CursorAt(l, n, r + 1) else Empty)
    ensures r >= PageCount(|l|, n) ==> Prefix(l, n, r) == Prefix(l, n, r + 1) == l
  {
    if r < PageCount(|l|, n) {
      PageAppends(l, n, r);
    } else {
      NothingLeft(l, n, r);
      NothingLeft(l, n, r + 1);
    }
  }

  lemma PageAppends(l: seq<Item>, n: nat, r: nat)
    requires n > 0 && Listable(l) && r < PageCount(|l|, n)
    ensures Prefix(l, n, r + 1) == Prefix(l, n, r) + PageFor(l, n, CursorAt(l, n, r)).items
    ensures PageFor(l, n, CursorAt(l, n, r)).next ==
            if r + 1 < PageCount(|l|, n) then CursorAt(l, n, r + 1) else Empty
  {
    PageStep(l, n, r);
    var b := Min((r + 1) * n, |l|);
    assert Prefix(l, n, r) == l[..r * n] && Prefix(l, n, r + 1) == l[..b];
    hide *;
    SliceAppends(l, r * n, b);
  }

  lemma SliceAppends<T>(l: seq<T>, a: nat, b: nat)
    requires a <= b <= |l|
    ensures l[..b] == l[..a] + l[a..b]
  {
  }

  lemma NothingLeft(l: seq<Item>, n: nat, r: nat)
    requires n > 0 && r >= PageCount(|l|, n)
    ensures Prefix(l, n, r) == l
  {
    var p := PageCount(|l|, n);
    PageCountBounds(|l|, n, p - 1);
    MulMonotone(p, r, n);
    hide PageCount;
    assert r * n >= |l|;
  }

  lemma CursorIsUsable(l: seq<Item>, n: nat, r: nat)
    requires n > 0 && r < PageCount(|l|, n)
    ensures !CursorAt(l, n, r).Malformed? && (CursorAt(l, n, r).Empty? <==> r == 0)
  {
  }

  /** The pages that the pending tiers answer with. */
  ghost function PendingPages(ls: ItemLists, n: nat, r: nat): map<Kind, Page>
    requires n > 0
  {
    map k | k in ls && r < PageCount(|ls[k]|, n) :: PageFor(ls[k], n, CursorAt(ls[k], n, r))
  }

  method RequestPending(tiers: Tiers, admits: Item -> bool, n: nat, cursors: Cursors, ghost ls: ItemLists, ghost r: nat)
    returns (pages: map<Kind, Page>)
    requires n > 0 && WellFormedTiers(tiers) && ls == Listings(tiers, admits) && cursors == Pending(ls, n, r)
    ensures pages == PendingPages(ls, n, r)
  {
    var asked := map k | k in tiers && k in cursors :: tiers[k];
    PendingAnswers(tiers, admits, n, cursors, ls, r, asked);
    hide Listings, PageFor, PendingPages, Pending;
    var response := ListAll(asked, admits, n, cursors);
    pages := response.value;
  }

  /** What the pending tiers are asked, and what they answer. */
  lemma PendingAnswers(tiers: Tiers, admits: Item -> bool, n: nat, cursors: Cursors, ls: ItemLists, r: nat,
                       asked: Tiers)
    requires n > 0 && WellFormedTiers(tiers) && ls == Listings(tiers, admits) && cursors == Pending(ls, n, r)
    requires asked == map k | k in tiers && k in cursors :: tiers[k]
    ensures WellFormedTiers(asked) && forall k :: k in asked ==> !CursorOf(cursors, k).Malformed?
    ensures PendingPages(ls, n, r) == map k | k in asked ::
              PageFor(Listings(asked, admits)[k], EffectivePageSize(n), CursorOf(cursors, k))
  {
    hide ListingOf, CursorAt, PageFor, PageCount, WellFormed;
    forall k | k in asked
      ensures !CursorOf(cursors, k).Malformed?
    {
      CursorIsUsable(ls[k], n, r);
    }
  }

  lemma RoundCollects(ls: ItemLists, n: nat, r: nat, out: ItemLists, next: Cursors)
    requires n > 0 && AllListable(ls)
    requires var before, pages := Collected(ls, n, r), PendingPages(ls, n, r);
             && out.Keys == before.Keys + pages.Keys
             && (forall k :: k in pages ==> out[k] == Extended(before, pages, k))
             && (forall k :: k in before && k !in pages ==> out[k] == before[k])
             && next == map k | k in pages && !pages[k].next.Empty? :: pages[k].next
    ensures out == Collected(ls, n, r + 1) && next == Pending(ls, n, r + 1)
  {
    hide Prefix, PageFor, CursorAt, PageCount, Listable;
    forall k | k in ls
      ensures out[k] == Prefix(ls[k], n, r + 1)
      ensures k in next <==> r + 1 < PageCount(|ls[k]|, n)
      ensures k in next ==> next[k] == CursorAt(ls[k], n, r + 1)
    {
      NextPrefix(ls[k], n, r);
      if r + 1 < PageCount(|ls[k]|, n) {
        CursorIsUsable(ls[k], n, r + 1);
      }
    }
    assert out.Keys == ls.Keys;
  }

  lemma AllCollected(ls: ItemLists, n: nat, r: nat)
    requires n > 0 && AllListable(ls) && Pending(ls, n, r) == map[]
    ensures Collected(ls, n, r) == ls
  {
    forall k | k in ls
      ensures Prefix(ls[k], n, r) == ls[k]
    {
      assert k !in Pending(ls, n, r);
      NextPrefix(ls[k], n, r);
    }
  }

  lemma Starts(ls: ItemLists, n: nat, out: ItemLists, cursors: Cursors)
    requires n > 0
    requires out == map k | k in ls :: []
    requires cursors == map k | k in ls :: Empty
    ensures out == Collected(ls, n, 0) && cursors == Pending(ls, n, 0)
  {
    forall k | k in ls
      ensures Prefix(ls[k], n, 0) == [] && CursorAt(ls[k], n, 0) == Empty
    {
    }
  }

  lemma StillPending(ls: ItemLists, n: nat, r: nat)
    requires n > 0 && Pending(ls, n, r) != map[]
    ensures r < Total(PageCounts(ls, n))
  {
    var k :| k in Pending(ls, n, r);
    BelowTotal(PageCounts(ls, n), k);
  }

  /** One pass through the loop's body. */
  method PendingRound(tiers: Tiers, admits: Item -> bool, n: nat, before: ItemLists, cursors: Cursors,
                      ghost ls: ItemLists, ghost r: nat)
    returns (out: ItemLists, next: Cursors)
    requires n > 0 && WellFormedTiers(tiers) && ls == Listings(tiers, admits) && AllListable(ls)
    requires before == Collected(ls, n, r) && cursors == Pending(ls, n, r)
    ensures out == Collected(ls, n, r + 1) && next == Pending(ls, n, r + 1)
  {
    hide Listings, AllListable, PendingPages, Pending, Collected;
    var pages := RequestPending(tiers, admits, n, cursors, ls, r);
    out, next := Accumulate(pages, before);
    RoundCollects(ls, n, r, out, next);
  }

  /** Page through all tiers, asking in each round only those that have a cursor left. */
  method ListAllOnce(tiers: Tiers, admits: Item -> bool, pageSize: int) returns (out: ItemLists)
    requires WellFormedTiers(tiers)
    ensures out == Listings(tiers, admits)
  {
    var n := LoopPageSize(pageSize);
    ghost var ls, rounds: nat := Listings(tiers, admits), 0;
    ListingsAreListable(tiers, admits);
    out := map k | k in tiers :: [];
    var cursors: Cursors := map k | k in tiers :: Empty;
    hide Listings, Pending, Collected, AllListable, Total, PageCounts;
    assert ls.Keys == tiers.Keys by { ListedTiers(tiers, admits); }
    Starts(ls, n, out, cursors);
    while cursors != map[]
      invariant out == Collected(ls, n, rounds) && cursors == Pending(ls, n, rounds)
      decreases Total(PageCounts(ls, n)) - rounds
    {
      StillPending(ls, n, rounds);
      out, cursors := PendingRound(tiers, admits, n, out, cursors, ls, rounds);
      rounds := rounds + 1;
    }
    AllCollected(ls, n, rounds);
  }

  lemma ListedTiers(tiers: Tiers, admits: Item -> bool)
    requires WellFormedTiers(tiers)
    ensures Listings(tiers, admits).Keys == tiers.Keys
  {
  }
}
