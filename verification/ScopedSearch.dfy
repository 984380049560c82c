/** Scoped search: the tier cuts its ranked hits, the scope is checked afterwards (memory/scoped_manager_local.go). */
module ScopedSearch {
  import opened Types
  import opened Ordering
  import opened Recall
  import opened Pushdown
  import opened TierSearch
  import opened Scoping

  ghost predicate InScope(r: SearchResult, heap: Heap, s: Scope, matches: (Scope, Scope) -> bool)
  {
    matches(s, ReadScope(heap, r.item))
  }

  lemma {:induction false} KeepOfConcat(a: seq<SearchResult>, b: seq<SearchResult>, heap: Heap, s: Scope,
                                        matches: (Scope, Scope) -> bool)
    ensures KeepScope(a + b, heap, s, matches) == KeepScope(a, heap, s, matches) + KeepScope(b, heap, s, matches)
  {
    if b == [] {
      assert a + b == a;
    } else {
      KeepOfConcat(a, b[..|b| - 1], heap, s, matches);
      assert (a + b)[..|a + b| - 1] == a + b[..|b| - 1];
    }
  }

  ghost predicate AllInScope(a: seq<SearchResult>, heap: Heap, s: Scope, matches: (Scope, Scope) -> bool)
  {
    forall i :: 0 <= i < |a| ==> InScope(a[i], heap, s, matches)
  }

  ghost predicate NoneInScope(a: seq<SearchResult>, heap: Heap, s: Scope, matches: (Scope, Scope) -> bool)
  {
    forall i :: 0 <= i < |a| ==> !InScope(a[i], heap, s, matches)
  }

  lemma LastInScope(a: seq<SearchResult>, heap: Heap, s: Scope, matches: (Scope, Scope) -> bool)
    requires a != []
    ensures var init, last := a[..|a| - 1], InScope(a[|a| - 1], heap, s, matches);
            && (AllInScope(a, heap, s, matches) <==> AllInScope(init, heap, s, matches) && last)
            && (NoneInScope(a, heap, s, matches) <==> NoneInScope(init, heap, s, matches) && !last)
  {
    hide InScope;
    assert a == a[..|a| - 1] + [a[|a| - 1]];
  }

  lemma {:induction false} KeepLength(a: seq<SearchResult>, heap: Heap, s: Scope, matches: (Scope, Scope) -> bool)
    ensures |KeepScope(a, heap, s, matches)| <= |a|
    ensures |KeepScope(a, heap, s, matches)| == |a| <==> AllInScope(a, heap, s, matches)
    ensures KeepScope(a, heap, s, matches) == [] <==> NoneInScope(a, heap, s, matches)
  {
    if a != [] {
      KeepLength(a[..|a| - 1], heap, s, matches);
      LastInScope(a, heap, s, matches);
      hide AllInScope, NoneInScope, ReadScope;
    }
  }

  /** Some result is cut off in favour of one outside the scope. */
  ghost predicate CrowdedOut(hits: seq<SearchResult>, k: nat, heap: Heap, s: Scope, matches: (Scope, Scope) -> bool)
  {
    exists i, j :: 0 <= i < k <= j < |hits| && !InScope(hits[i], heap, s, matches) && InScope(hits[j], heap, s, matches)
  }

  /** Cutting to `k` before filtering loses something if and only if something is crowded out. */
  lemma CutThenKeepIff(hits: seq<SearchResult>, k: nat, heap: Heap, s: Scope, matches: (Scope, Scope) -> bool)
    ensures var found := KeepScope(Shorter(k, hits), heap, s, matches);
            var wanted := Shorter(k, KeepScope(hits, heap, s, matches));
            found == wanted <==> !CrowdedOut(hits, k, heap, s, matches)
  {
    hide KeepScope, CrowdedOut, AllInScope, NoneInScope;
    if |hits| > k {
      var a, b := hits[..k], hits[k..];
      assert hits == a + b;
      KeepOfConcat(a, b, heap, s, matches);
      KeepLength(a, heap, s, matches);
      KeepLength(b, heap, s, matches);
      CrowdedOutBy(hits, k, heap, s, matches);
      CutConcat(KeepScope(a, heap, s, matches), KeepScope(b, heap, s, matches), k);
    } else {
      KeepLength(hits, heap, s, matches);
      NotCrowded(hits, k, heap, s, matches);
    }
  }

  lemma CutConcat(a: seq<SearchResult>, b: seq<SearchResult>, k: nat)
    requires |a| <= k
    ensures a == Shorter(k, a + b) <==> |a| == k || b == []
  {
    if b == [] {
      assert a + b == a;
    } else if |a| < k {
      assert |Shorter(k, a + b)| > |a|;
    }
  }

  lemma NotCrowded(hits: seq<SearchResult>, k: nat, heap: Heap, s: Scope, matches: (Scope, Scope) -> bool)
    requires |hits| <= k
    ensures !CrowdedOut(hits, k, heap, s, matches)
  {
  }

  lemma CrowdedOutBy(hits: seq<SearchResult>, k: nat, heap: Heap, s: Scope, matches: (Scope, Scope) -> bool)
    requires k < |hits|
    ensures CrowdedOut(hits, k, heap, s, matches) <==>
            !AllInScope(hits[..k], heap, s, matches) && !NoneInScope(hits[k..], heap, s, matches)
  {
    hide InScope;
    var a, b := hits[..k], hits[k..];
    if !AllInScope(a, heap, s, matches) && !NoneInScope(b, heap, s, matches) {
      var i :| 0 <= i < |a| && !InScope(a[i], heap, s, matches);
      var j :| 0 <= j < |b| && InScope(b[j], heap, s, matches);
      assert hits[i] == a[i] && hits[k + j] == b[j];
    }
    if CrowdedOut(hits, k, heap, s, matches) {
      var i, j :| 0 <= i < k <= j < |hits| && !InScope(hits[i], heap, s, matches)
                  && InScope(hits[j], heap, s, matches);
      assert a[i] == hits[i] && b[j - k] == hits[j];
    }
  }

  /** One wanted, one of another scope ranked first: the scope's only hit is lost. */
  lemma ScopedSearchMisses(a: SearchResult, b: SearchResult, heap: Heap, s: Scope, matches: (Scope, Scope) -> bool)
    requires !InScope(a, heap, s, matches) && InScope(b, heap, s, matches)
    ensures KeepScope(Shorter(1, [a, b]), heap, s, matches) == []
    ensures KeepScope([a, b], heap, s, matches) == [b]
  {
    assert Shorter(1, [a, b]) == [a];
    assert [a, b] == [a] + [b];
    KeepOfConcat([a], [b], heap, s, matches);
    assert [a][..0] == [] == [b][..0];
  }

  // ----- The operation -----

  /** A ranked list of a tier's hits: sorted by descending score, in any order among ties. */
  ghost predicate IsRanked(ranked: seq<SearchResult>, full: seq<SearchResult>)
  {
    Permutation(ranked, full) && Sorted(ranked, Better)
  }

  /** What a scoped search returns when the tier ranks its hits as `ranked`. */
  ghost function Found(ranked: seq<SearchResult>, topK: int, heap: Heap, s: Scope, matches: (Scope, Scope) -> bool)
    : seq<SearchResult>
  {
    KeepScope(Shorter(SearchLimit(topK), ranked), heap, s, matches)
  }

  /** The best hits of the scope, as many as were asked for. */
  ghost function Wanted(ranked: seq<SearchResult>, topK: int, heap: Heap, s: Scope, matches: (Scope, Scope) -> bool)
    : seq<SearchResult>
  {
    Shorter(SearchLimit(topK), KeepScope(ranked, heap, s, matches))
  }

  /** Search the tier, then filter. */
  method ScopedSearch(items: Items, blank: bool, query: Result<Vector>, admits: Item -> bool,
                      score: (Vector, Item) -> real, topK: int, heap: Heap, s: Scope, matches: (Scope, Scope) -> bool)
    returns (r: Result<seq<SearchResult>>)
    requires WellFormed(items)
    ensures r.Err? <==> blank || query.Err?
    ensures r.Ok? ==>
              exists full, ranked ::
                && ScoredItems(full, items, admits, query.value, score) && IsRanked(ranked, full)
                && r.value == if IsZero(s) then Shorter(SearchLimit(topK), ranked)
                              else Found(ranked, topK, heap, s, matches)
  {
    var raw := Search(items, blank, query, admits, score, topK);
    if raw.Err? {
      return Err(raw.error);
    }
    ghost var full :| ScoredItems(full, items, admits, query.value, score) && IsCut(raw.value, full, SearchLimit(topK));
    ghost var ranked :| IsRanked(ranked, full) && raw.value == Shorter(SearchLimit(topK), ranked);
    hide ScoredItems, IsRanked, KeepScope;
    var kept := FilterByScope(raw.value, heap, s, matches);
    r := Ok(kept);
  }

  /**
   * A scoped search over a tier returns the best hits of the scope, as many as asked for, if and only if
   * no hit of the scope was cut off while one outside it was kept.
   */
  lemma ScopedSearchCompleteIff(ranked: seq<SearchResult>, topK: int, heap: Heap, s: Scope,
                                matches: (Scope, Scope) -> bool)
    ensures Found(ranked, topK, heap, s, matches) == Wanted(ranked, topK, heap, s, matches) <==>
            !CrowdedOut(ranked, SearchLimit(topK), heap, s, matches)
  {
    CutThenKeepIff(ranked, SearchLimit(topK), heap, s, matches);
  }

  // ----- For every order among ties -----

  ghost function Above(hits: seq<SearchResult>, t: real): set<SearchResult>
  {
    set x | x in hits && x.score > t
  }

  ghost function AtLeast(hits: seq<SearchResult>, t: real): set<SearchResult>
  {
    set x | x in hits && x.score >= t
  }

  /**
   * Some order among ties lets `f`, outside the scope, into the first `k` and keeps `h`, of the scope, out:
   * fewer than `k` hits score above `f`, and more than `k` score at least as much as `h`.
   */
  ghost predicate CrowdsOut(full: seq<SearchResult>, k: nat, heap: Heap, s: Scope, matches: (Scope, Scope) -> bool,
                            f: SearchResult, h: SearchResult)
  {
    && f in full && !InScope(f, heap, s, matches) && h in full && InScope(h, heap, s, matches)
    && f.score >= h.score && |Above(full, f.score)| < k < |AtLeast(full, h.score)|
  }

  ghost function Elements(hits: seq<SearchResult>): set<SearchResult>
  {
    set x | x in hits
  }

  lemma {:induction false} ElementCount(hits: seq<SearchResult>)
    requires Distinct(hits)
    ensures |Elements(hits)| == |hits|
  {
    if hits == [] {
      assert Elements(hits) == {};
    } else {
      var init, last := hits[..|hits| - 1], hits[|hits| - 1];
      assert hits == init + [last];
      ElementCount(init);
      assert Elements(hits) == Elements(init) + {last};
    }
  }

  lemma Fits<T>(a: set<T>, b: set<T>)
    requires a <= b
    ensures |a| <= |b|
  {
    assert b == a + (b - a);
  }

  /** What stands before place `i` of a ranked list. */
  lemma AboveStandsBefore(ranked: seq<SearchResult>, i: nat)
    requires Sorted(ranked, Better) && Distinct(ranked) && i < |ranked|
    ensures |Above(ranked, ranked[i].score)| <= i < |AtLeast(ranked, ranked[i].score)|
  {
    var before, upTo := ranked[..i], ranked[..i + 1];
    forall x | x in Above(ranked, ranked[i].score)
      ensures x in before
    {
      var j :| 0 <= j < |ranked| && ranked[j] == x;
      assert j > i ==> !Better(ranked[j], ranked[i]);
      assert before[j] == x;
    }
    forall x | x in upTo
      ensures x in AtLeast(ranked, ranked[i].score)
    {
      var j :| 0 <= j <= i && ranked[j] == x;
      assert j < i ==> !Better(ranked[i], ranked[j]);
    }
    ElementCount(before);
    ElementCount(upTo);
    Fits(Above(ranked, ranked[i].score), Elements(before));
    Fits(Elements(upTo), AtLeast(ranked, ranked[i].score));
  }

  /** By descending score; among ties `f` first and `h` last. */
  predicate Favours(f: SearchResult, h: SearchResult, x: SearchResult, y: SearchResult)
  {
    x.score > y.score || (x.score == y.score && ((x == f && y != f) || (y == h && x != h)))
  }

  lemma FavoursOrder(f: SearchResult, h: SearchResult)
    requires f != h
    ensures StrictWeakOrder((x, y) => Favours(f, h, x, y))
  {
  }

  /** Every list has a sorted permutation. */
  lemma {:induction false} SortedExists<T(!new)>(s: seq<T>, less: (T, T) -> bool) returns (r: seq<T>)
    requires StrictWeakOrder(less)
    ensures Permutation(r, s) && Sorted(r, less)
  {
    r := [];
    if s != [] {
      var init, last := s[..|s| - 1], s[|s| - 1];
      assert s == init + [last];
      var t := SortedExists(init, less);
      hide StrictWeakOrder;
      r := InsertExists(t, last, less);
    }
  }

  lemma InsertExists<T(!new)>(s: seq<T>, x: T, less: (T, T) -> bool) returns (r: seq<T>)
    requires StrictWeakOrder(less) && Sorted(s, less)
    ensures multiset(r) == multiset(s) + multiset{x} && Sorted(r, less)
  {
    var k := |s|;
    while k > 0 && less(x, s[k - 1])
      invariant 0 <= k <= |s|
      invariant forall j :: k <= j < |s| ==> less(x, s[j])
    {
      k := k - 1;
    }
    hide StrictWeakOrder, Sorted;
    assert s == s[..k] + s[k..];
    r := s[..k] + [x] + s[k..];
    InsertedIsSorted(s, k, x, less);
  }

  /** Where `f` and `h` stand in a list sorted with that preference. */
  lemma FavouredPlaces(r: seq<SearchResult>, f: SearchResult, h: SearchResult, i: nat, j: nat)
    requires Distinct(r) && f != h && i < |r| && r[i] == f && j < |r| && r[j] == h
    requires Sorted(r, (x, y) => Favours(f, h, x, y))
    ensures i <= |Above(r, f.score)| && |AtLeast(r, h.score)| <= j + 1
  {
    var before, upTo := r[..i], r[..j + 1];
    forall x | x in before
      ensures x in Above(r, f.score)
    {
      var q :| 0 <= q < i && r[q] == x;
      assert !Favours(f, h, r[i], r[q]);
    }
    forall x | x in AtLeast(r, h.score)
      ensures x in upTo
    {
      var q :| 0 <= q < |r| && r[q] == x;
      assert j < q ==> !Favours(f, h, r[q], r[j]);
      assert upTo[q] == x;
    }
    ElementCount(before);
    ElementCount(upTo);
    Fits(Elements(before), Above(r, f.score));
    Fits(AtLeast(r, h.score), Elements(upTo));
  }

  lemma FavouredIsRanked(r: seq<SearchResult>, full: seq<SearchResult>, f: SearchResult, h: SearchResult)
    requires Permutation(r, full) && Sorted(r, (x, y) => Favours(f, h, x, y))
    ensures IsRanked(r, full)
  {
    forall i, j | 0 <= i < j < |r|
      ensures !Better(r[j], r[i])
    {
      assert !Favours(f, h, r[j], r[i]);
    }
  }

  lemma SameSets(r: seq<SearchResult>, full: seq<SearchResult>, t: real)
    requires Permutation(r, full)
    ensures Above(r, t) == Above(full, t) && AtLeast(r, t) == AtLeast(full, t)
  {
    SameElements(r, full);
  }

  /** If some pair can crowd out, some order among ties makes it so. */
  lemma SomeOrderCrowdsOut(full: seq<SearchResult>, k: nat, heap: Heap, s: Scope, matches: (Scope, Scope) -> bool,
                           f: SearchResult, h: SearchResult) returns (r: seq<SearchResult>)
    requires Distinct(full) && CrowdsOut(full, k, heap, s, matches, f, h)
    ensures IsRanked(r, full) && CrowdedOut(r, k, heap, s, matches)
  {
    FavoursOrder(f, h);
    r := SortedExists(full, (x, y) => Favours(f, h, x, y));
    hide InScope, Favours;
    FavouredIsRanked(r, full, f, h);
    SameElements(r, full);
    DistinctPermutation(full, r);
    SameSets(r, full, f.score);
    SameSets(r, full, h.score);
    var i :| 0 <= i < |r| && r[i] == f;
    var j :| 0 <= j < |r| && r[j] == h;
    FavouredPlaces(r, f, h, i, j);
  }

  /** If an order crowds a hit out, so do the scores. */
  lemma CrowdedOutByScores(full: seq<SearchResult>, ranked: seq<SearchResult>, k: nat, heap: Heap, s: Scope,
                           matches: (Scope, Scope) -> bool) returns (f: SearchResult, h: SearchResult)
    requires Distinct(full) && IsRanked(ranked, full) && CrowdedOut(ranked, k, heap, s, matches)
    ensures CrowdsOut(full, k, heap, s, matches, f, h)
  {
    hide InScope;
    SameElements(ranked, full);
    DistinctPermutation(full, ranked);
    var i, j :| 0 <= i < k <= j < |ranked| && !InScope(ranked[i], heap, s, matches)
                && InScope(ranked[j], heap, s, matches);
    f, h := ranked[i], ranked[j];
    assert !Better(ranked[j], ranked[i]);
    AboveStandsBefore(ranked, i);
    AboveStandsBefore(ranked, j);
    SameSets(ranked, full, f.score);
    SameSets(ranked, full, h.score);
  }

  /**
   * Whatever order the tier's sort leaves among ties, a scoped search over its admitted items returns the
   * best hits of the scope, as many as asked for, if and only if no hit outside the scope that can be among
   * the first ones scores at least as much as a hit of the scope that can be cut off.
   */
  lemma AlwaysCompleteIff(full: seq<SearchResult>, items: Items, admits: Item -> bool, query: Vector,
                          score: (Vector, Item) -> real, topK: int, heap: Heap, s: Scope,
                          matches: (Scope, Scope) -> bool)
    requires ScoredItems(full, items, admits, query, score)
    ensures (forall ranked :: IsRanked(ranked, full) ==>
               Found(ranked, topK, heap, s, matches) == Wanted(ranked, topK, heap, s, matches)) <==>
            !(exists f, h :: CrowdsOut(full, SearchLimit(topK), heap, s, matches, f, h))
  {
    assert Distinct(full);
    var k := SearchLimit(topK);
    hide *;
    forall ranked | IsRanked(ranked, full)
      ensures Found(ranked, topK, heap, s, matches) == Wanted(ranked, topK, heap, s, matches) ||
              exists f, h :: CrowdsOut(full, k, heap, s, matches, f, h)
    {
      ScopedSearchCompleteIff(ranked, topK, heap, s, matches);
      if CrowdedOut(ranked, k, heap, s, matches) {
        var f, h := CrowdedOutByScores(full, ranked, k, heap, s, matches);
      }
    }
    if f, h :| CrowdsOut(full, k, heap, s, matches, f, h) {
      var r := SomeOrderCrowdsOut(full, k, heap, s, matches, f, h);
      ScopedSearchCompleteIff(r, topK, heap, s, matches);
    }
  }
}
