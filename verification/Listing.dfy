/** Keyset pagination over one store (memory/engine_list.go). */
module Listing {
  import opened Ordering
  import opened Types

  datatype Key = Key(at: Time, id: string)

  function KeyOf(it: Item): Key
  {
    Key(it.createdAt, it.id)
  }

  /** Listing order: newest first, then by ascending ID. */
  predicate Precedes(a: Key, b: Key)
  {
    a.at > b.at || (a.at == b.at && StringLess(a.id, b.id))
  }

  predicate ItemPrecedes(a: Item, b: Item)
  {
    Precedes(KeyOf(a), KeyOf(b))
  }

  lemma KeyOrder()
    ensures forall a: Key, b: Key :: Precedes(a, b) || Precedes(b, a) || a == b
    ensures forall a: Key, b: Key :: !(Precedes(a, b) && Precedes(b, a))
    ensures forall a: Key, b: Key, c: Key :: Precedes(a, b) && Precedes(b, c) ==> Precedes(a, c)
  {
    StringOrder();
  }

  lemma PrecedesTransitive(a: Key, b: Key, c: Key)
    requires Precedes(a, b) && Precedes(b, c)
    ensures Precedes(a, c)
  {
    if a.at == b.at == c.at {
      StringLessTransitive(a.id, b.id, c.id);
    }
  }

  lemma PrecedesAsymmetric(a: Key, b: Key)
    requires Precedes(a, b)
    ensures !Precedes(b, a) && a != b
  {
    StringTrichotomy(a.id, b.id);
  }

  lemma ItemOrder()
    ensures StrictWeakOrder(ItemPrecedes)
  {
    KeyOrder();
  }

  // ----- Cursors -----

  /** The text form of a cursor: absent, produced by the encoder, or anything else. */
  datatype CursorText = Empty | Encoded(key: Key) | Malformed

  function DecodeCursor(t: CursorText): Result<Key>
  {
    match t
    case Empty => Ok(Key(ZERO_TIME, ""))
    case Encoded(k) => Ok(k)
    case Malformed => Err("bad cursor")
  }

  predicate IsStart(cur: Key)
  {
    cur.at == ZERO_TIME && cur.id == ""
  }

  datatype Page = Page(items: seq<Item>, next: CursorText)

  // ----- Specification: the one sorted listing, and the page a cursor selects in it -----

  /** `l` is the listing of the items of `items` that `admits` accepts. */
  ghost predicate IsListing(l: seq<Item>, items: Items, admits: Item -> bool)
  {
    && StrictlySorted(l, ItemPrecedes)
    && forall x :: x in l <==> x.id in items && items[x.id] == x && admits(x)
  }

  lemma ListingUnique(l: seq<Item>, l': seq<Item>, items: Items, admits: Item -> bool)
    requires IsListing(l, items, admits) && IsListing(l', items, admits)
    ensures l == l'
  {
    KeyOrder();
    StrictlySortedUnique(l, l', ItemPrecedes);
  }

  /** Every store has a listing. */
  ghost function ListingOf(items: Items, admits: Item -> bool): (l: seq<Item>)
    requires WellFormed(items)
    ensures IsListing(l, items, admits)
    decreases |items|
  {
    if items == map[] then [] else
      var k :| k in items;
      var smaller := items - {k};
      var rest := ListingOf(smaller, admits);
      if admits(items[k]) then InsertItem(rest, items[k]) else rest
  }

  ghost function InsertItem(l: seq<Item>, x: Item): (r: seq<Item>)
    requires StrictlySorted(l, ItemPrecedes)
    requires forall y :: y in l ==> y.id != x.id
    ensures StrictlySorted(r, ItemPrecedes)
    ensures forall y :: y in r <==> y == x || y in l
  {
    if l == [] then [x]
    else
      var r := if ItemPrecedes(x, l[0]) then [x] + l else [l[0]] + InsertItem(l[1..], x);
      InsertItemSorted(l, x, r);
      r
  }

  lemma InsertItemSorted(l: seq<Item>, x: Item, r: seq<Item>)
    requires StrictlySorted(l, ItemPrecedes) && l != []
    requires forall y :: y in l ==> y.id != x.id
    requires if ItemPrecedes(x, l[0]) then r == [x] + l
             else exists tail :: r == [l[0]] + tail && StrictlySorted(tail, ItemPrecedes)
                                 && forall y :: y in tail <==> y == x || y in l[1..]
    ensures StrictlySorted(r, ItemPrecedes)
    ensures forall y :: y in r <==> y == x || y in l
  {
    assert l == [l[0]] + l[1..];
    hide ItemPrecedes;
    if ItemPrecedes(x, l[0]) {
      forall y | y in l ensures ItemPrecedes(x, y) { BeforeHead(l, x, y); }
      HeadFirst(x, l);
    } else {
      var tail :| r == [l[0]] + tail && StrictlySorted(tail, ItemPrecedes)
                  && forall y :: y in tail <==> y == x || y in l[1..];
      assert l[0] in l;
      forall y | y in tail ensures ItemPrecedes(l[0], y) { AfterHead(l, x, y); }
      HeadFirst(l[0], tail);
    }
  }

  lemma HeadFirst(x: Item, tail: seq<Item>)
    requires StrictlySorted(tail, ItemPrecedes) && forall y :: y in tail ==> ItemPrecedes(x, y)
    ensures StrictlySorted([x] + tail, ItemPrecedes)
  {
    hide ItemPrecedes;
  }

  lemma BeforeHead(l: seq<Item>, x: Item, y: Item)
    requires StrictlySorted(l, ItemPrecedes) && l != [] && ItemPrecedes(x, l[0]) && y in l
    ensures ItemPrecedes(x, y)
  {
    var i :| 0 <= i < |l| && l[i] == y;
    if i > 0 {
      PrecedesTransitive(KeyOf(x), KeyOf(l[0]), KeyOf(y));
    }
  }

  lemma AfterHead(l: seq<Item>, x: Item, y: Item)
    requires StrictlySorted(l, ItemPrecedes) && l != [] && !ItemPrecedes(x, l[0]) && x.id != l[0].id
    requires y == x || y in l[1..]
    ensures ItemPrecedes(l[0], y)
  {
    StringTrichotomy(x.id, l[0].id);
  }

  /** Where a listing continues after a cursor. */
  function Start(l: seq<Item>, cur: Key): (start: nat)
    ensures start <= |l|
  {
    if IsStart(cur) then 0 else FirstAfter(l, cur, 0)
  }

  function FirstAfter(l: seq<Item>, cur: Key, i: nat): (start: nat)
    requires i <= |l|
    ensures i <= start <= |l|
    ensures forall j :: i <= j < start ==> !Precedes(cur, KeyOf(l[j]))
    ensures start < |l| ==> Precedes(cur, KeyOf(l[start]))
    decreases |l| - i
  {
    if i == |l| || Precedes(cur, KeyOf(l[i])) then i else FirstAfter(l, cur, i + 1)
  }

  function EffectivePageSize(pageSize: int): (n: nat)
    ensures n > 0
  {
    if pageSize <= 0 then 50 else pageSize
  }

  function PageAt(l: seq<Item>, n: nat, cur: Key): Page
    requires n > 0
  {
    var start := Start(l, cur);
    if start + n < |l|
    then Page(l[start..start + n], Encoded(KeyOf(l[start + n - 1])))
    else Page(l[start..], Empty)
  }

  // ----- What a page is, in the items' own fields -----

  /** `b` is listed after the position (at, id): it is older, or equally old with a greater ID. */
  predicate ListedAfter(at: Time, id: string, b: Item)
  {
    b.createdAt < at || (b.createdAt == at && StringLess(id, b.id))
  }

  /** The item comes after the cursor, if the cursor sets a position at all. */
  predicate PastCursor(cursor: CursorText, x: Item)
  {
    cursor.Encoded? && !(cursor.key.at == ZERO_TIME && cursor.key.id == "") ==>
      ListedAfter(cursor.key.at, cursor.key.id, x)
  }

  /**
   * A page holds stored, admitted items past the cursor, newest first and by ascending ID among equals. It is
   * full and names its last item exactly if there is more, and what it leaves out comes after it.
   */
  ghost predicate PageInFields(page: Page, items: Items, admits: Item -> bool, n: nat, cursor: CursorText)
  {
    && (forall i :: 0 <= i < |page.items| ==>
          && page.items[i].id in items && items[page.items[i].id] == page.items[i]
          && admits(page.items[i]) && PastCursor(cursor, page.items[i]))
    && (forall i, j :: 0 <= i < j < |page.items| ==>
          ListedAfter(page.items[i].createdAt, page.items[i].id, page.items[j]))
    && |page.items| <= n
    && (page.next.Empty? || (|page.items| == n > 0
          && page.next == Encoded(Key(page.items[n - 1].createdAt, page.items[n - 1].id))))
    && NextIsRight(page, items, admits, cursor)
  }

  /** There is a next cursor exactly if something is left out, all of which comes after it. */
  ghost predicate NextIsRight(page: Page, items: Items, admits: Item -> bool, cursor: CursorText)
  {
    && (page.next.Encoded? ==> exists k :: k in items && LeftOut(page, items, admits, cursor, k))
    && (forall k :: k in items && LeftOut(page, items, admits, cursor, k) ==>
          page.next.Encoded? && ListedAfter(page.next.key.at, page.next.key.id, items[k]))
  }

  /** The item is admitted and past the cursor, but not on the page. */
  ghost predicate LeftOut(page: Page, items: Items, admits: Item -> bool, cursor: CursorText, k: string)
    requires k in items
  {
    admits(items[k]) && PastCursor(cursor, items[k]) && items[k] !in page.items
  }

  /** The first page begins with a newest admitted item. */
  lemma FirstPageStartsNewest(page: Page, items: Items, admits: Item -> bool, n: nat, k: string)
    requires PageInFields(page, items, admits, n, Empty) && n > 0 && k in items && admits(items[k])
    ensures page.items != [] && items[k].createdAt <= page.items[0].createdAt
  {
    if items[k] in page.items {
      var i :| 0 <= i < |page.items| && page.items[i] == items[k];
      assert i > 0 ==> ListedAfter(page.items[0].createdAt, page.items[0].id, page.items[i]);
    } else {
      assert LeftOut(page, items, admits, Empty, k);
      assert n > 1 ==> ListedAfter(page.items[0].createdAt, page.items[0].id, page.items[n - 1]);
    }
  }

  lemma PageItemInFields(l: seq<Item>, items: Items, admits: Item -> bool, n: nat, cursor: CursorText, i: nat)
    requires IsListing(l, items, admits) && n > 0 && !cursor.Malformed?
    requires i < |PageAt(l, n, DecodeCursor(cursor).value).items|
    ensures var page := PageAt(l, n, DecodeCursor(cursor).value);
            && page.items[i].id in items && items[page.items[i].id] == page.items[i]
            && admits(page.items[i]) && PastCursor(cursor, page.items[i])
            && forall j :: 0 <= j < i ==> ListedAfter(page.items[j].createdAt, page.items[j].id, page.items[i])
  {
    var cur := DecodeCursor(cursor).value;
    PageBounds(l, n, cur, i);
    hide PageAt, StrictlySorted;
    assert PageAt(l, n, cur).items[i] in l;
  }

  lemma PageSatisfies(l: seq<Item>, items: Items, admits: Item -> bool, n: nat, cursor: CursorText)
    requires WellFormed(items) && IsListing(l, items, admits) && n > 0 && !cursor.Malformed?
    ensures PageInFields(PageAt(l, n, DecodeCursor(cursor).value), items, admits, n, cursor)
  {
    var page := PageAt(l, n, DecodeCursor(cursor).value);
    PageShape(l, n, DecodeCursor(cursor).value);
    hide PageAt, IsListing, PastCursor, ListedAfter, DecodeCursor, LeftOut;
    forall i | 0 <= i < |page.items|
      ensures page.items[i].id in items && items[page.items[i].id] == page.items[i]
      ensures admits(page.items[i]) && PastCursor(cursor, page.items[i])
      ensures forall j :: 0 <= j < i ==> ListedAfter(page.items[j].createdAt, page.items[j].id, page.items[i])
    {
      PageItemInFields(l, items, admits, n, cursor, i);
    }
    NextAsListed(l, items, admits, n, cursor);
    hide NextIsRight;
  }

  lemma NextAsListed(l: seq<Item>, items: Items, admits: Item -> bool, n: nat, cursor: CursorText)
    requires WellFormed(items) && IsListing(l, items, admits) && n > 0 && !cursor.Malformed?
    ensures NextIsRight(PageAt(l, n, DecodeCursor(cursor).value), items, admits, cursor)
  {
    var page := PageAt(l, n, DecodeCursor(cursor).value);
    hide PageAt, IsListing, ListedAfter, DecodeCursor, LeftOut, WellFormed;
    forall k | k in items && LeftOut(page, items, admits, cursor, k)
      ensures page.next.Encoded? && ListedAfter(page.next.key.at, page.next.key.id, items[k])
    {
      LeftOutInFields(l, items, admits, n, cursor, k);
    }
    if page.next.Encoded? {
      var k := MoreIsLeftOut(l, items, admits, n, cursor);
    }
  }

  /** A page with a next cursor leaves something out. */
  lemma MoreIsLeftOut(l: seq<Item>, items: Items, admits: Item -> bool, n: nat, cursor: CursorText) returns (k: string)
    requires IsListing(l, items, admits) && n > 0 && !cursor.Malformed?
    requires PageAt(l, n, DecodeCursor(cursor).value).next.Encoded?
    ensures k in items && LeftOut(PageAt(l, n, DecodeCursor(cursor).value), items, admits, cursor, k)
  {
    var cur := DecodeCursor(cursor).value;
    var x := NextItem(l, n, cur);
    hide PageAt, StrictlySorted;
    k := x.id;
  }

  lemma NextItem(l: seq<Item>, n: nat, cur: Key) returns (x: Item)
    requires StrictlySorted(l, ItemPrecedes) && n > 0 && PageAt(l, n, cur).next.Encoded?
    ensures x in l && x !in PageAt(l, n, cur).items && (IsStart(cur) || ListedAfter(cur.at, cur.id, x))
  {
    var start := Start(l, cur);
    x := l[start + n];
    assert PageAt(l, n, cur).items == l[start..start + n];
    hide PageAt;
    AfterIsSuffix(l, cur, start + n);
    NotInFront(l, start, start + n);
    hide StrictlySorted;
  }

  lemma NotInFront(l: seq<Item>, a: nat, b: nat)
    requires StrictlySorted(l, ItemPrecedes) && a <= b < |l|
    ensures l[b] !in l[a..b]
  {
    forall i | a <= i < b
      ensures l[i] != l[b]
    {
      assert ItemPrecedes(l[i], l[b]);
      PrecedesAsymmetric(KeyOf(l[i]), KeyOf(l[b]));
    }
  }

  lemma PageShape(l: seq<Item>, n: nat, cur: Key)
    requires n > 0
    ensures var page := PageAt(l, n, cur);
            && |page.items| <= n
            && (page.next.Empty? || (|page.items| == n
                  && page.next == Encoded(Key(page.items[n - 1].createdAt, page.items[n - 1].id))))
  {
  }

  lemma LeftOutInFields(l: seq<Item>, items: Items, admits: Item -> bool, n: nat, cursor: CursorText, k: string)
    requires WellFormed(items) && IsListing(l, items, admits) && n > 0 && !cursor.Malformed? && k in items
    requires LeftOut(PageAt(l, n, DecodeCursor(cursor).value), items, admits, cursor, k)
    ensures var page := PageAt(l, n, DecodeCursor(cursor).value);
            page.next.Encoded? && ListedAfter(page.next.key.at, page.next.key.id, items[k])
  {
    hide PageAt, IsListing;
    PositionOf(cursor, items[k]);
    LeftOutComesAfter(l, items, admits, n, DecodeCursor(cursor).value, items[k]);
  }

  lemma PositionOf(cursor: CursorText, x: Item)
    requires !cursor.Malformed? && PastCursor(cursor, x)
    ensures var cur := DecodeCursor(cursor).value; IsStart(cur) || ListedAfter(cur.at, cur.id, x)
  {
  }

  lemma LeftOutComesAfter(l: seq<Item>, items: Items, admits: Item -> bool, n: nat, cur: Key, x: Item)
    requires IsListing(l, items, admits) && n > 0 && x.id in items && items[x.id] == x && admits(x)
    requires x !in PageAt(l, n, cur).items && (IsStart(cur) || ListedAfter(cur.at, cur.id, x))
    ensures var page := PageAt(l, n, cur);
            page.next.Encoded? && ListedAfter(page.next.key.at, page.next.key.id, x)
  {
    var page := PageAt(l, n, cur);
    assert x in l;
    PageCovers(l, n, cur, KeyOf(x));
    hide PageAt;
    forall j | 0 <= j < |page.items|
      ensures KeyOf(page.items[j]) != KeyOf(x)
    {
      PageBounds(l, n, cur, j);
      hide StrictlySorted;
      assert page.items[j] in l;
    }
  }

  // ----- The operation -----

  /** Filter, sort, find the first item after the cursor, cut one page. */
  method ListFromStore(items: Items, admits: Item -> bool, pageSize: int, cursor: CursorText)
    returns (r: Result<Page>, ghost l: seq<Item>)
    requires WellFormed(items)
    ensures IsListing(l, items, admits)
    ensures cursor.Malformed? <==> r.Err?
    ensures r.Ok? ==> r.value == PageAt(l, EffectivePageSize(pageSize), DecodeCursor(cursor).value)
    ensures r.Ok? ==> PageInFields(r.value, items, admits, if pageSize <= 0 then 50 else pageSize, cursor)
    ensures r.Ok? ==>
              forall i, j :: 0 <= i < j < |r.value.items| ==>
                var a, b := r.value.items[i], r.value.items[j];
                a.createdAt > b.createdAt || (a.createdAt == b.createdAt && StringLess(a.id, b.id))
  {
    hide IsListing, PageAt;
    var candidates := SortedCandidates(items, admits);
    l := candidates;
    if cursor.Malformed? {
      return Err("bad cursor"), l;
    }
    var page := CutPage(candidates, EffectivePageSize(pageSize), DecodeCursor(cursor).value);
    PageSatisfies(l, items, admits, EffectivePageSize(pageSize), cursor);
    r := Ok(page);
  }

  method CutPage(candidates: seq<Item>, n: nat, cur: Key) returns (page: Page)
    requires n > 0
    ensures page == PageAt(candidates, n, cur)
  {
    var start := 0;
    if cur.at != ZERO_TIME || cur.id != "" {
      start := FindStart(candidates, cur);
    }
    hide FirstAfter;
    var end := if start + n > |candidates| then |candidates| else start + n;
    var next := Empty;
    if end < |candidates| {
      var last := candidates[end - 1];
      next := Encoded(Key(last.createdAt, last.id));
    }
    page := Page(candidates[start..end], next);
  }

  method SortedCandidates(items: Items, admits: Item -> bool) returns (l: seq<Item>)
    requires WellFormed(items)
    ensures IsListing(l, items, admits)
  {
    var collected := Collect(items, admits);
    assert StrictWeakOrder(ItemPrecedes) by { ItemOrder(); }
    l := Sort(collected, ItemPrecedes);
    SortedCollectionIsListing(collected, l, items, admits);
  }

  /** The matching items, in the map's arbitrary iteration order. */
  method Collect(items: Items, admits: Item -> bool) returns (out: seq<Item>)
    requires WellFormed(items)
    ensures Distinct(out)
    ensures forall x :: x in out <==> x.id in items && items[x.id] == x && admits(x)
  {
    out := [];
    var todo := items.Keys;
    while todo != {}
      invariant todo <= items.Keys
      invariant Distinct(out)
      invariant forall x :: x in out <==> x.id in items && x.id !in todo && items[x.id] == x && admits(x)
      decreases todo
    {
      var k :| k in todo;
      if admits(items[k]) {
        out := out + [items[k]];
      }
      todo := todo - {k};
    }
  }

  method FindStart(candidates: seq<Item>, cur: Key) returns (start: nat)
    ensures start == FirstAfter(candidates, cur, 0)
  {
    start := |candidates|;
    for i := 0 to |candidates|
      invariant start == |candidates|
      invariant FirstAfter(candidates, cur, 0) == FirstAfter(candidates, cur, i)
    {
      var it := candidates[i];
      if it.createdAt < cur.at {
        return i;
      }
      if it.createdAt == cur.at && StringLess(cur.id, it.id) {
        return i;
      }
    }
  }

  lemma SortedCollectionIsListing(c: seq<Item>, l: seq<Item>, items: Items, admits: Item -> bool)
    requires WellFormed(items)
    requires Distinct(c) && Permutation(l, c) && Sorted(l, ItemPrecedes)
    requires forall x :: x in c <==> x.id in items && items[x.id] == x && admits(x)
    ensures IsListing(l, items, admits)
  {
    SameElements(l, c);
    DistinctPermutation(c, l);
    KeyOrder();
    forall i, j | 0 <= i < j < |l|
      ensures ItemPrecedes(l[i], l[j])
    {
      assert l[i] in l && l[j] in l;
    }
  }

  // ----- Pages within one listing -----

  lemma AfterIsSuffix(l: seq<Item>, cur: Key, i: nat)
    requires StrictlySorted(l, ItemPrecedes) && i < |l|
    ensures Precedes(cur, KeyOf(l[i])) <==> FirstAfter(l, cur, 0) <= i
  {
    var start := FirstAfter(l, cur, 0);
    if start < i {
      assert ItemPrecedes(l[start], l[i]);
      PrecedesTransitive(cur, KeyOf(l[start]), KeyOf(l[i]));
    }
  }

  /** A page is a run of the listing: everything in it lies after the cursor and up to the next cursor. */
  lemma PageBounds(l: seq<Item>, n: nat, cur: Key, i: nat)
    requires StrictlySorted(l, ItemPrecedes) && n > 0
    requires i < |PageAt(l, n, cur).items|
    ensures var page := PageAt(l, n, cur);
            && page.items[i] in l
            && (page.next.Encoded? ==> page.next.key == KeyOf(page.items[|page.items| - 1]))
            && (!IsStart(cur) ==> Precedes(cur, KeyOf(page.items[i])))
            && (forall j :: 0 <= j < i ==> ItemPrecedes(page.items[j], page.items[i]))
  {
    var start := Start(l, cur);
    AfterIsSuffix(l, cur, start + i);
  }

  /** A listed key after the cursor is on the page, or lies beyond the page's next cursor. */
  lemma PageCovers(l: seq<Item>, n: nat, cur: Key, key: Key)
    requires StrictlySorted(l, ItemPrecedes) && n > 0
    requires InListing(l, key)
    requires IsStart(cur) || Precedes(cur, key)
    ensures var page := PageAt(l, n, cur);
            || InListing(page.items, key)
            || (page.next.Encoded? && Precedes(page.next.key, key))
  {
    var start, page := Start(l, cur), PageAt(l, n, cur);
    var i :| 0 <= i < |l| && KeyOf(l[i]) == key;
    AfterIsSuffix(l, cur, i);
    if i < start + n {
      assert page.items[i - start] == l[i];
    } else {
      assert ItemPrecedes(l[start + n - 1], l[i]) || start + n - 1 == i;
    }
  }

  /** Resuming from the key of the item at `j - 1` continues exactly at `j`. */
  lemma StartAfter(l: seq<Item>, j: nat)
    requires StrictlySorted(l, ItemPrecedes)
    requires 0 < j <= |l| && l[j - 1].id != ""
    ensures Start(l, KeyOf(l[j - 1])) == j
  {
    var cur := KeyOf(l[j - 1]);
    AfterIsSuffix(l, cur, j - 1);
    StringTrichotomy(cur.id, cur.id);
    if j < |l| {
      assert ItemPrecedes(l[j - 1], l[j]);
      AfterIsSuffix(l, cur, j);
    }
  }

  ghost predicate InListing(l: seq<Item>, key: Key)
  {
    exists i :: 0 <= i < |l| && KeyOf(l[i]) == key
  }

  // ----- Following cursors while the store changes -----

  /** One request of a client: the store's contents and filter at that moment, and the page returned. */
  datatype Round = Round(items: Items, admits: Item -> bool, listing: seq<Item>, n: nat, page: Page)

  /** The cursor the client sends with request `r`: none at first, then the previous page's. */
  ghost function CursorFor(rounds: seq<Round>, r: nat): Key
    requires r <= |rounds|
  {
    if r > 0 && rounds[r - 1].page.next.Encoded? then rounds[r - 1].page.next.key else Key(ZERO_TIME, "")
  }

  /**
   * A client pages through one store. Between requests the store may change in
   * any way: nothing relates `rounds[r].items` to `rounds[r + 1].items`.
   */
  ghost predicate Pass(rounds: seq<Round>)
  {
    forall r :: 0 <= r < |rounds| ==> Answered(rounds, r)
  }

  ghost predicate Answered(rounds: seq<Round>, r: nat)
    requires r < |rounds|
  {
    var round := rounds[r];
    && round.n > 0
    && WellFormed(round.items)
    && IsListing(round.listing, round.items, round.admits)
    && round.page == PageAt(round.listing, round.n, CursorFor(rounds, r))
    && (r + 1 < |rounds| ==> round.page.next.Encoded?)
  }

  /** What the pages of a pass say about one returned item. */
  lemma ReturnedItem(rounds: seq<Round>, r: nat, i: nat)
    requires Pass(rounds) && r < |rounds| && i < |rounds[r].page.items|
    ensures rounds[r].page.items[i].id != ""
    ensures forall j :: 0 <= j < i ==> ItemPrecedes(rounds[r].page.items[j], rounds[r].page.items[i])
    ensures !IsStart(CursorFor(rounds, r)) ==> Precedes(CursorFor(rounds, r), KeyOf(rounds[r].page.items[i]))
  {
    assert Answered(rounds, r);
    PageBounds(rounds[r].listing, rounds[r].n, CursorFor(rounds, r), i);
  }

  lemma CursorIsSet(rounds: seq<Round>, r: nat)
    requires Pass(rounds) && 0 < r < |rounds|
    ensures !IsStart(CursorFor(rounds, r))
    ensures rounds[r - 1].page.items != []
    ensures CursorFor(rounds, r) == KeyOf(rounds[r - 1].page.items[|rounds[r - 1].page.items| - 1])
  {
    assert Answered(rounds, r - 1);
    ReturnedItem(rounds, r - 1, |rounds[r - 1].page.items| - 1);
  }

  /** Every key returned in round `r` comes before every key returned in a later round. */
  lemma {:induction false} PagesAreOrdered(rounds: seq<Round>, r: nat, r': nat, i: nat, i': nat)
    requires Pass(rounds) && r < r' < |rounds|
    requires i < |rounds[r].page.items| && i' < |rounds[r'].page.items|
    ensures ItemPrecedes(rounds[r].page.items[i], rounds[r'].page.items[i'])
    decreases r'
  {
    CursorIsSet(rounds, r');
    ReturnedItem(rounds, r', i');
    var prev, cur := rounds[r' - 1].page.items, CursorFor(rounds, r');
    var last := |prev| - 1;
    var later := KeyOf(rounds[r'].page.items[i']);
    if r < r' - 1 {
      PagesAreOrdered(rounds, r, r' - 1, i, last);
      PrecedesTransitive(KeyOf(rounds[r].page.items[i]), cur, later);
    } else if i < last {
      ReturnedItem(rounds, r, last);
      PrecedesTransitive(KeyOf(prev[i]), cur, later);
    }
  }

  /** No (creation time, ID) pair is ever returned twice, whatever happens to the store in between. */
  lemma KeysNeverRepeat(rounds: seq<Round>, r: nat, r': nat, i: nat, i': nat)
    requires Pass(rounds) && r < |rounds| && r' < |rounds|
    requires i < |rounds[r].page.items| && i' < |rounds[r'].page.items|
    requires KeyOf(rounds[r].page.items[i]) == KeyOf(rounds[r'].page.items[i'])
    ensures r == r' && i == i'
  {
    var key := KeyOf(rounds[r].page.items[i]);
    StringTrichotomy(key.id, key.id);
    if r < r' {
      PagesAreOrdered(rounds, r, r', i, i');
    } else if r' < r {
      PagesAreOrdered(rounds, r', r, i', i);
    } else {
      ReturnedItem(rounds, r, i);
      ReturnedItem(rounds, r, i');
    }
  }

  /** In every round the store holds a matching item with this key (its other fields may change). */
  ghost predicate AlwaysListed(rounds: seq<Round>, key: Key)
  {
    forall r :: 0 <= r < |rounds| ==> InListing(rounds[r].listing, key)
  }

  ghost predicate ReturnedAt(rounds: seq<Round>, key: Key, r: int, i: int)
  {
    0 <= r < |rounds| && 0 <= i < |rounds[r].page.items| && KeyOf(rounds[r].page.items[i]) == key
  }

  lemma {:induction false} ReturnedOrAhead(rounds: seq<Round>, key: Key, r: nat)
    requires Pass(rounds) && AlwaysListed(rounds, key) && r < |rounds|
    ensures || (exists r', i :: ReturnedAt(rounds, key, r', i))
            || (rounds[r].page.next.Encoded? && Precedes(rounds[r].page.next.key, key))
  {
    if r > 0 {
      ReturnedOrAhead(rounds, key, r - 1);
    }
    var cur := CursorFor(rounds, r);
    if r == 0 || Precedes(cur, key) {
      assert Answered(rounds, r);
      PageCovers(rounds[r].listing, rounds[r].n, cur, key);
      if InListing(rounds[r].page.items, key) {
        var i :| 0 <= i < |rounds[r].page.items| && KeyOf(rounds[r].page.items[i]) == key;
        assert ReturnedAt(rounds, key, r, i);
      }
    }
  }

  /**
   * A pass that ran to its end returned every key that was listed throughout
   * exactly once, however the rest of the store changed between pages.
   */
  lemma StableKeyReturnedExactlyOnce(rounds: seq<Round>, key: Key)
    requires Pass(rounds) && AlwaysListed(rounds, key)
    requires rounds != [] && rounds[|rounds| - 1].page.next.Empty?
    ensures exists r, i :: ReturnedAt(rounds, key, r, i)
                           && forall r', i' :: ReturnedAt(rounds, key, r', i') ==> r' == r && i' == i
  {
    ReturnedOrAhead(rounds, key, |rounds| - 1);
    var r, i :| ReturnedAt(rounds, key, r, i);
    forall r', i' | ReturnedAt(rounds, key, r', i')
      ensures r' == r && i' == i
    {
      KeysNeverRepeat(rounds, r, r', i, i');
    }
  }
}
