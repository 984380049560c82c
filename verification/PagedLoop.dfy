/**
 * The loop that pages through every tier at once (memory/consolidator.go,
 * memory/scoped_lifecycle.go). A tier that has reached its end is asked again
 * from the start while any other tier still has pages, so the loop runs for the
 * least common multiple of the page counts.
 */
module PagedLoop {
  import opened Types
  import opened Ordering
  import opened Listing
  import opened Rounds

  type Tiers = map<Kind, Items>
  type ItemLists = map<Kind, seq<Item>>
  type Cursors = map<Kind, CursorText>

  predicate WellFormedTiers(tiers: Tiers)
  {
    forall k :: k in tiers ==> WellFormed(tiers[k])
  }

  ghost function Listings(tiers: Tiers, admits: Item -> bool): (ls: ItemLists)
    requires WellFormedTiers(tiers)
  {
    map k | k in tiers :: ListingOf(tiers[k], admits)
  }

  ghost function PageCounts(ls: ItemLists, n: nat): Counts
    requires n > 0
  {
    map k | k in ls :: PageCount(|ls[k]|, n)
  }

  function Repeat<T>(s: seq<T>, m: nat): seq<T>
  {
    if m == 0 then [] else Repeat(s, m - 1) + s
  }

  // ----- One request to all tiers -----

  function CursorOf(cursors: Cursors, k: Kind): CursorText
  {
    if k in cursors then cursors[k] else Empty
  }

  /** The page a tier returns; a malformed cursor is an error and selects no page. */
  ghost function PageFor(l: seq<Item>, n: nat, cursor: CursorText): Page
    requires n > 0
  {
    match DecodeCursor(cursor)
    case Ok(key) => PageAt(l, n, key)
    case Err(_) => Page([], Empty)
  }

  method ListAll(tiers: Tiers, admits: Item -> bool, pageSize: int, cursors: Cursors)
    returns (r: Result<map<Kind, Page>>)
    requires WellFormedTiers(tiers)
    ensures r.Err? <==> exists k :: k in tiers && CursorOf(cursors, k).Malformed?
    ensures r.Ok? ==> r.value == map k | k in tiers ::
                        PageFor(Listings(tiers, admits)[k], EffectivePageSize(pageSize), CursorOf(cursors, k))
  {
    hide IsListing, WellFormed, PageAt;
    ghost var ls, n := Listings(tiers, admits), EffectivePageSize(pageSize);
    var out: map<Kind, Page> := map[];
    for i := 0 to |KINDS|
      invariant forall k :: k in out <==> k in tiers && k in KINDS[..i]
      invariant forall k :: k in out ==> !CursorOf(cursors, k).Malformed?
      invariant forall k :: k in out ==> out[k] == PageFor(ls[k], n, CursorOf(cursors, k))
    {
      var kind := KINDS[i];
      assert KINDS[..i + 1] == KINDS[..i] + [kind];
      if kind in tiers {
        var cursor := CursorOf(cursors, kind);
        var page, l := ListFromStore(tiers[kind], admits, pageSize, cursor);
        if page.Err? {
          return Err(page.error);
        }
        ListingUnique(l, ls[kind], tiers[kind], admits);
        out := out[kind := page.value];
      }
    }
    assert KINDS[..|KINDS|] == KINDS;
    forall k | k in tiers ensures k in out { EveryKind(k); }
    r := Ok(out);
  }

  // ----- One tier over many rounds -----

  ghost predicate Listable(l: seq<Item>)
  {
    StrictlySorted(l, ItemPrecedes) && forall i :: 0 <= i < |l| ==> l[i].id != ""
  }

  // One tier's side of the loop: the cursor it is asked with after `r` rounds,
  // the page it answers with, and the items it has contributed.

  ghost function CursorAfter(l: seq<Item>, n: nat, r: nat): CursorText
    requires n > 0
    decreases r, 0
  {
    if r == 0 then Empty else PageInRound(l, n, r - 1).next
  }

  ghost function PageInRound(l: seq<Item>, n: nat, r: nat): Page
    requires n > 0
    decreases r, 1
  {
    PageFor(l, n, CursorAfter(l, n, r))
  }

  ghost function Contributed(l: seq<Item>, n: nat, r: nat): seq<Item>
    requires n > 0
  {
    if r == 0 then [] else Contributed(l, n, r - 1) + PageInRound(l, n, r - 1).items
  }

  /** The cursor with which page `i` of a listing is requested. */
  ghost function CursorAt(l: seq<Item>, n: nat, i: nat): CursorText
    requires n > 0 && i < PageCount(|l|, n)
  {
    PageCountBounds(|l|, n, i);
    if i == 0 then Empty else Encoded(KeyOf(l[i * n - 1]))
  }

  lemma PageStep(l: seq<Item>, n: nat, i: nat)
    requires Listable(l) && n > 0 && i < PageCount(|l|, n)
    ensures 0 <= i * n <= Min((i + 1) * n, |l|)
    ensures var page := PageFor(l, n, CursorAt(l, n, i));
            && page.items == l[i * n..Min((i + 1) * n, |l|)]
            && page.next == (if i + 1 == PageCount(|l|, n) then Empty else CursorAt(l, n, i + 1))
  {
    PageCountBounds(|l|, n, i);
    StartOfPage(l, n, i);
    hide Start, CursorAt, Listable;
    assert (i + 1) * n == i * n + n;
    assert DecodeCursor(CursorAt(l, n, i)).Ok? by { CursorAtDecodes(l, n, i); }
    NextCursorAt(l, n, i);
  }

  lemma StartOfPage(l: seq<Item>, n: nat, i: nat)
    requires Listable(l) && n > 0 && i < PageCount(|l|, n)
    ensures DecodeCursor(CursorAt(l, n, i)).Ok?
    ensures Start(l, DecodeCursor(CursorAt(l, n, i)).value) == i * n
  {
    if i > 0 {
      PageCountBounds(|l|, n, i);
      assert i * n >= 1 by { MulMonotone(1, i, n); }
      StartAfter(l, i * n);
    }
  }

  lemma CursorAtDecodes(l: seq<Item>, n: nat, i: nat)
    requires n > 0 && i < PageCount(|l|, n)
    ensures DecodeCursor(CursorAt(l, n, i)).Ok?
  {
  }

  lemma NextCursorAt(l: seq<Item>, n: nat, i: nat)
    requires n > 0 && i + 1 <= PageCount(|l|, n)
    ensures i + 1 < PageCount(|l|, n) ==>
              0 < (i + 1) * n < |l| && CursorAt(l, n, i + 1) == Encoded(KeyOf(l[(i + 1) * n - 1]))
  {
    PageCountBounds(|l|, n, i);
    assert (i + 1) * n >= n by { MulMonotone(1, i + 1, n); }
  }

  /** The tier's state after `r` rounds, `q` complete listings and `i` pages of the next. */
  ghost predicate At(l: seq<Item>, n: nat, q: nat, i: nat, r: nat)
    requires n > 0 && i < PageCount(|l|, n)
  {
    && CursorAfter(l, n, r) == CursorAt(l, n, i)
    && 0 <= i * n <= |l|
    && Contributed(l, n, r) == Repeat(l, q) + l[..i * n]
  }

  /** One round of one tier, unfolded. */
  lemma RoundStep(l: seq<Item>, n: nat, r: nat)
    requires n > 0
    ensures var page := PageFor(l, n, CursorAfter(l, n, r));
            && CursorAfter(l, n, r + 1) == page.next
            && Contributed(l, n, r + 1) == Contributed(l, n, r) + page.items
  {
  }

  lemma NextPage(l: seq<Item>, n: nat, q: nat, i: nat, r: nat)
    requires n > 0 && Listable(l) && i + 1 < PageCount(|l|, n) && At(l, n, q, i, r)
    ensures At(l, n, q, i + 1, r + 1)
  {
    PageStep(l, n, i);
    PageCountBounds(|l|, n, i);
    RoundStep(l, n, r);
    hide PageFor, CursorAt, CursorAfter, Contributed, Listable, PageCount, Repeat;
    assert Min((i + 1) * n, |l|) == (i + 1) * n;
    AppendSlice(Repeat(l, q), l, i * n, (i + 1) * n);
  }

  lemma WrapAround(l: seq<Item>, n: nat, q: nat, i: nat, r: nat)
    requires n > 0 && Listable(l) && i + 1 == PageCount(|l|, n) && At(l, n, q, i, r)
    ensures At(l, n, q + 1, 0, r + 1)
  {
    PageStep(l, n, i);
    PageCountBounds(|l|, n, i);
    RoundStep(l, n, r);
    assert CursorAt(l, n, 0) == Empty && Repeat(l, q + 1) == Repeat(l, q) + l;
    hide PageFor, CursorAt, CursorAfter, Contributed, Listable, PageCount, Repeat;
    assert Min((i + 1) * n, |l|) == |l| && 0 * n == 0;
    AppendSlice(Repeat(l, q), l, i * n, |l|);
    NoSlice(Repeat(l, q + 1), l);
  }

  lemma NoSlice<T>(s: seq<T>, l: seq<T>)
    ensures s + l[..0] == s
  {
  }

  lemma TierStarts(l: seq<Item>, n: nat)
    requires n > 0
    ensures At(l, n, 0, 0, 0)
  {
  }

  lemma {:induction false} WithinListing(l: seq<Item>, n: nat, q: nat, i: nat, r: nat)
    requires n > 0 && Listable(l) && i < PageCount(|l|, n)
    requires At(l, n, q, 0, r)
    ensures At(l, n, q, i, r + i)
  {
    hide At;
    if i > 0 {
      WithinListing(l, n, q, i - 1, r);
      NextPage(l, n, q, i - 1, r + i - 1);
    }
  }

  lemma OneListing(l: seq<Item>, n: nat, p: nat, q: nat, r: nat)
    requires n > 0 && Listable(l) && p == PageCount(|l|, n) && At(l, n, q, 0, r)
    ensures At(l, n, q + 1, 0, r + p)
  {
    hide *;
    WithinListing(l, n, q, p - 1, r);
    WrapAround(l, n, q, p - 1, r + p - 1);
  }

  lemma {:induction false} WholeListings(l: seq<Item>, n: nat, p: nat, q: nat, r: nat)
    requires n > 0 && Listable(l) && p == PageCount(|l|, n) && r == q * p
    ensures At(l, n, q, 0, r)
  {
    if q == 0 {
      TierStarts(l, n);
    } else {
      hide *;
      assert (q - 1) * p == r - p;
      WholeListings(l, n, p, q - 1, r - p);
      OneListing(l, n, p, q - 1, r - p);
    }
  }

  lemma AppendSlice<T>(s: seq<T>, l: seq<T>, a: nat, b: nat)
    requires a <= b <= |l|
    ensures s + l[..a] + l[a..b] == s + l[..b]
    ensures l[..|l|] == l
  {
  }

  /** Closed form: after `r` rounds a tier is at page `r mod p`, having gone round `r div p` times. */
  lemma TierAtEnd(l: seq<Item>, n: nat, r: nat)
    requires n > 0 && Listable(l)
    ensures CursorAfter(l, n, r).Empty? <==> r % PageCount(|l|, n) == 0
    ensures CursorAfter(l, n, r).Empty? ==> Contributed(l, n, r) == Repeat(l, r / PageCount(|l|, n))
  {
    var p := PageCount(|l|, n);
    var q, i := r / p, r % p;
    DivModForm(r, p);
    WholeListings(l, n, p, q, q * p);
    WithinListing(l, n, q, i, q * p);
  }

  // ----- All tiers -----

  ghost function CursorsAfter(ls: ItemLists, n: nat, r: nat): Cursors
    requires n > 0
  {
    map k | k in ls && !CursorAfter(ls[k], n, r).Empty? :: CursorAfter(ls[k], n, r)
  }

  ghost function ItemsAfter(ls: ItemLists, n: nat, r: nat): ItemLists
    requires n > 0
  {
    if r == 0 then map[] else map k | k in ls :: Contributed(ls[k], n, r)
  }

  ghost function PagesInRound(ls: ItemLists, n: nat, r: nat): map<Kind, Page>
    requires n > 0
  {
    map k | k in ls :: PageInRound(ls[k], n, r)
  }

  /** What a tier has contributed once its page is appended. */
  function Extended(before: ItemLists, pages: map<Kind, Page>, k: Kind): seq<Item>
    requires k in pages
  {
    (if k in before then before[k] else []) + pages[k].items
  }

  /** The result and the cursors once the pages of the tiers `done` have been dealt with. */
  ghost function Appended(before: ItemLists, pages: map<Kind, Page>, done: set<Kind>): ItemLists
    requires done <= pages.Keys
  {
    map k | k in before.Keys + done :: if k in done then Extended(before, pages, k) else before[k]
  }

  ghost function Continuing(pages: map<Kind, Page>, done: set<Kind>): Cursors
    requires done <= pages.Keys
  {
    map k | k in done && !pages[k].next.Empty? :: pages[k].next
  }

  lemma OneMorePage(before: ItemLists, pages: map<Kind, Page>, done: set<Kind>, kind: Kind)
    requires done <= pages.Keys && kind in pages && kind !in done
    ensures Appended(before, pages, done + {kind}) ==
            Appended(before, pages, done)[kind := Extended(before, pages, kind)]
    ensures kind in Appended(before, pages, done) <==> kind in before
    ensures kind in before ==> Appended(before, pages, done)[kind] == before[kind]
    ensures Continuing(pages, done + {kind}) ==
            if pages[kind].next.Empty? then Continuing(pages, done)
            else Continuing(pages, done)[kind := pages[kind].next]
  {
  }

  /** Append each tier's page, and keep the cursors of the tiers that have more. */
  method Accumulate(pages: map<Kind, Page>, before: ItemLists) returns (out: ItemLists, next: Cursors)
    ensures out.Keys == before.Keys + pages.Keys
    ensures forall k :: k in pages ==> out[k] == Extended(before, pages, k)
    ensures forall k :: k in before && k !in pages ==> out[k] == before[k]
    ensures next == map k | k in pages && !pages[k].next.Empty? :: pages[k].next
  {
    out, next := before, map[];
    var todo := pages.Keys;
    ghost var done: set<Kind> := {};
    while todo != {}
      invariant todo !! done && todo + done == pages.Keys
      invariant out == Appended(before, pages, done) && next == Continuing(pages, done)
      decreases todo
    {
      var kind :| kind in todo;
      OneMorePage(before, pages, done, kind);
      hide Appended, Continuing;
      out := out[kind := (if kind in out then out[kind] else []) + pages[kind].items];
      if !pages[kind].next.Empty? {
        next := next[kind := pages[kind].next];
      }
      todo := todo - {kind};
      done := done + {kind};
    }
  }

  /** One pass through the loop's body. */
  method PageRound(tiers: Tiers, admits: Item -> bool, n: nat, before: ItemLists, cursors: Cursors,
                   ghost ls: ItemLists, ghost r: nat)
    returns (out: ItemLists, next: Cursors)
    requires n > 0 && WellFormedTiers(tiers) && ls == Listings(tiers, admits)
    requires before == ItemsAfter(ls, n, r) && cursors == CursorsAfter(ls, n, r)
    ensures out == ItemsAfter(ls, n, r + 1) && next == CursorsAfter(ls, n, r + 1)
  {
    hide Listings, CursorAfter, Contributed, PageInRound;
    var pages := RequestRound(tiers, admits, n, cursors, ls, r);
    out, next := Accumulate(pages, before);
    RoundAdds(ls, n, r, out, next);
  }

  method RequestRound(tiers: Tiers, admits: Item -> bool, n: nat, cursors: Cursors, ghost ls: ItemLists, ghost r: nat)
    returns (pages: map<Kind, Page>)
    requires n > 0 && WellFormedTiers(tiers) && ls == Listings(tiers, admits)
    requires cursors == CursorsAfter(ls, n, r)
    ensures pages == PagesInRound(ls, n, r)
  {
    forall k | k in ls
      ensures CursorOf(cursors, k) == CursorAfter(ls[k], n, r) && !CursorOf(cursors, k).Malformed?
    {
      CursorOfRound(ls, n, r, k);
    }
    var response := ListAll(tiers, admits, n, cursors);
    pages := response.value;
  }

  lemma CursorOfRound(ls: ItemLists, n: nat, r: nat, k: Kind)
    requires n > 0 && k in ls
    ensures CursorOf(CursorsAfter(ls, n, r), k) == CursorAfter(ls[k], n, r)
    ensures !CursorAfter(ls[k], n, r).Malformed?
  {
  }

  lemma RoundAdds(ls: ItemLists, n: nat, r: nat, out: ItemLists, next: Cursors)
    requires n > 0
    requires var before := ItemsAfter(ls, n, r);
             && out.Keys == before.Keys + ls.Keys
             && forall k :: k in ls ==>
                  out[k] == Extended(before, PagesInRound(ls, n, r), k)
    requires var pages := PagesInRound(ls, n, r);
             next == map k | k in pages && !pages[k].next.Empty? :: pages[k].next
    ensures out == ItemsAfter(ls, n, r + 1) && next == CursorsAfter(ls, n, r + 1)
  {
    forall k | k in ls
      ensures out[k] == Contributed(ls[k], n, r + 1)
    {
      assert Contributed(ls[k], n, 0) == [];
    }
    assert out.Keys == ls.Keys;
    NextCursors(ls, n, r, next);
  }

  lemma NextCursors(ls: ItemLists, n: nat, r: nat, next: Cursors)
    requires n > 0
    requires var pages := PagesInRound(ls, n, r);
             next == map k | k in pages && !pages[k].next.Empty? :: pages[k].next
    ensures next == CursorsAfter(ls, n, r + 1)
  {
    assert forall k :: k in ls ==> CursorAfter(ls[k], n, r + 1) == PagesInRound(ls, n, r)[k].next;
  }

  // ----- When the loop stops, and with what -----

  ghost predicate AllListable(ls: ItemLists)
  {
    forall k :: k in ls ==> Listable(ls[k])
  }

  lemma ListingsAreListable(tiers: Tiers, admits: Item -> bool)
    requires WellFormedTiers(tiers)
    ensures AllListable(Listings(tiers, admits))
  {
    forall k, i | k in tiers && 0 <= i < |Listings(tiers, admits)[k]|
      ensures Listings(tiers, admits)[k][i].id != ""
    {
      assert Listings(tiers, admits)[k][i] in ListingOf(tiers[k], admits);
    }
  }

  /** No cursor is left exactly after a common multiple of the page counts. */
  lemma StopsAtCommonMultiples(ls: ItemLists, n: nat, r: nat)
    requires n > 0 && AllListable(ls)
    ensures Done(ls, n, r) <==> CommonMultiple(r, PageCounts(ls, n))
  {
    forall k | k in ls
      ensures k in CursorsAfter(ls, n, r) <==> r % PageCounts(ls, n)[k] != 0
    {
      TierAtEnd(ls[k], n, r);
    }
    if CursorsAfter(ls, n, r) != map[] {
      var k :| k in CursorsAfter(ls, n, r);
      assert r % PageCounts(ls, n)[k] != 0;
    } else {
      assert forall k :: k in ls ==> k !in CursorsAfter(ls, n, r);
    }
  }

  ghost predicate Done(ls: ItemLists, n: nat, r: nat)
    requires n > 0
  {
    CursorsAfter(ls, n, r) == map[]
  }

  /** Some tier still had a cursor after each of the first `r` rounds. */
  ghost predicate KeptGoing(ls: ItemLists, n: nat, r: nat)
    requires n > 0
  {
    forall m :: 0 < m <= r ==> !Done(ls, n, m)
  }

  lemma KeepsGoing(ls: ItemLists, n: nat, r: nat)
    requires n > 0 && KeptGoing(ls, n, r) && !Done(ls, n, r + 1)
    ensures KeptGoing(ls, n, r + 1)
  {
  }

  lemma NotPastBound(ls: ItemLists, n: nat, r: nat, bound: nat)
    requires n > 0 && KeptGoing(ls, n, r) && Done(ls, n, bound) && bound > 0
    ensures r < bound
  {
  }

  lemma StopsByBound(ls: ItemLists, n: nat) returns (bound: nat)
    requires n > 0 && AllListable(ls)
    ensures bound > 0 && Done(ls, n, bound)
  {
    bound := Bound(PageCounts(ls, n));
    BoundIsCommonMultiple(PageCounts(ls, n));
    StopsAtCommonMultiples(ls, n, bound);
  }

  /**
   * What the loop returns: every tier's listing, whole, repeated (rounds / its page
   * count) times, where the number of rounds is the least common multiple of the page counts.
   */
  ghost predicate CycledListings(out: ItemLists, ls: ItemLists, n: nat, rounds: nat)
    requires n > 0
  {
    && LeastCommonMultiple(rounds, PageCounts(ls, n))
    && out == map k | k in ls :: Repeat(ls[k], rounds / PageCount(|ls[k]|, n))
  }

  lemma LoopResult(ls: ItemLists, n: nat, r: nat)
    requires n > 0 && r > 0 && AllListable(ls)
    requires Done(ls, n, r) && KeptGoing(ls, n, r - 1)
    ensures CycledListings(ItemsAfter(ls, n, r), ls, n, r)
  {
    StopsAtCommonMultiples(ls, n, r);
    forall m | 0 < m < r
      ensures !CommonMultiple(m, PageCounts(ls, n))
    {
      StopsAtCommonMultiples(ls, n, m);
    }
    forall k | k in ls
      ensures Contributed(ls[k], n, r) == Repeat(ls[k], r / PageCount(|ls[k]|, n))
    {
      assert r % PageCounts(ls, n)[k] == 0;
      TierAtEnd(ls[k], n, r);
    }
  }

  lemma LoopStart(ls: ItemLists, n: nat)
    requires n > 0
    ensures ItemsAfter(ls, n, 0) == map[] && CursorsAfter(ls, n, 0) == map[] && KeptGoing(ls, n, 0)
  {
  }

  function LoopPageSize(pageSize: int): (n: nat)
    ensures n > 0
  {
    if pageSize <= 0 then 200 else pageSize
  }

  /** Page through all tiers until a round in which no tier has more. */
  method ListAllPaged(tiers: Tiers, admits: Item -> bool, pageSize: int)
    returns (out: ItemLists)
    requires WellFormedTiers(tiers)
    ensures var n := if pageSize <= 0 then 200 else pageSize;
            exists rounds: nat :: CycledListings(out, Listings(tiers, admits), n, rounds)
  {
    hide Listings, CycledListings, ItemsAfter, CursorsAfter, KeptGoing, AllListable, Listable;
    var n := LoopPageSize(pageSize);
    ghost var ls := Listings(tiers, admits);
    ListingsAreListable(tiers, admits);
    ghost var bound := StopsByBound(ls, n);
    LoopStart(ls, n);
    var cursors: Cursors := map[];
    out := map[];
    ghost var rounds: nat := 0;
    while true
      invariant out == ItemsAfter(ls, n, rounds) && cursors == CursorsAfter(ls, n, rounds)
      invariant KeptGoing(ls, n, rounds)
      invariant rounds < bound
      decreases bound - rounds
    {
      out, cursors := PageRound(tiers, admits, n, out, cursors, ls, rounds);
      rounds := rounds + 1;
      if cursors == map[] {
        LoopResult(ls, n, rounds);
        return;
      }
      KeepsGoing(ls, n, rounds - 1);
      NotPastBound(ls, n, rounds, bound);
    }
  }
}
