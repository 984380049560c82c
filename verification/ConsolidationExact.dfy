/**
 * What one consolidation call does, in closed form: which listed items it promotes can be read off
 * the listing before the call. Every statement about repeats follows from this.
 */
module ConsolidationExact {
  import opened Types
  import opened Ordering
  import opened Rounds
  import opened Consolidation
  import opened ConsolidationProofs

  /** How many ripe entries among the first `n` refer to the map `ref`. */
  function RipeBefore(list: seq<Item>, n: nat, ref: MetaRef, opts: ConsolidateOptions, now: Time): nat
    requires n <= |list|
  {
    if n == 0 then 0
    else RipeBefore(list, n - 1, ref, opts, now) +
         (if list[n - 1].meta == ref && Ripe(list[n - 1], opts, now) then 1 else 0)
  }

  /**
   * A ripe entry is promoted unless its map, counting the ripe entries before it that share the map,
   * already stands at one. An entry without a map is promoted whatever came before.
   */
  predicate Chosen(w: World, list: seq<Item>, i: nat, opts: ConsolidateOptions, now: Time)
    requires i < |list|
  {
    && Ripe(list[i], opts, now)
    && (list[i].meta.Meta? ==> PromotionCount(w.heap, list[i]) + RipeBefore(list, i, list[i].meta, opts, now) < 1)
  }

  /** The positions promoted among the first `n`. */
  function ChosenAt(w: World, list: seq<Item>, n: nat, opts: ConsolidateOptions, now: Time): (c: seq<nat>)
    requires n <= |list|
    ensures forall k :: 0 <= k < |c| ==> c[k] < n
  {
    if n == 0 then []
    else ChosenAt(w, list, n - 1, opts, now) + (if Chosen(w, list, n - 1, opts, now) then [n - 1] else [])
  }

  function IdsAt(list: seq<Item>, c: seq<nat>): (ids: seq<string>)
    requires forall k :: 0 <= k < |c| ==> c[k] < |list|
    ensures |ids| == |c|
  {
    seq(|c|, k requires 0 <= k < |c| => list[c[k]].id)
  }

  function ChosenIds(w: World, list: seq<Item>, n: nat, opts: ConsolidateOptions, now: Time): seq<string>
    requires n <= |list|
  {
    IdsAt(list, ChosenAt(w, list, n, opts, now))
  }

  /** The positions are exactly the chosen ones, in order. */
  lemma {:induction false} ChosenAtIsExact(w: World, list: seq<Item>, n: nat, opts: ConsolidateOptions, now: Time)
    requires n <= |list|
    ensures forall p: nat :: p in ChosenAt(w, list, n, opts, now) <==> p < n && Chosen(w, list, p, opts, now)
    ensures forall i, j :: 0 <= i < j < |ChosenAt(w, list, n, opts, now)| ==>
              ChosenAt(w, list, n, opts, now)[i] < ChosenAt(w, list, n, opts, now)[j]
  {
    if n > 0 {
      ChosenAtIsExact(w, list, n - 1, opts, now);
    }
  }

  lemma {:induction false} ChosenPrefix(w: World, list: seq<Item>, n: nat, m: nat, opts: ConsolidateOptions, now: Time)
    requires n <= m <= |list|
    ensures ChosenAt(w, list, n, opts, now) <= ChosenAt(w, list, m, opts, now)
    decreases m - n
  {
    if n < m {
      ChosenPrefix(w, list, n, m - 1, opts, now);
    }
  }

  lemma ChosenNext(w: World, list: seq<Item>, n: nat, opts: ConsolidateOptions, now: Time)
    requires n < |list|
    ensures ChosenIds(w, list, n + 1, opts, now) ==
            ChosenIds(w, list, n, opts, now) + (if Chosen(w, list, n, opts, now) then [list[n].id] else [])
  {
  }

  // ----- The maps while the call runs -----

  /** How many stamps a map with count `c` has received after `t` ripe entries. */
  function Stamps(c: int, t: nat): nat
  {
    if c >= 1 then 0 else Min(t, 1 - c)
  }

  /** What the map of a listed item holds after the first `n` entries. */
  function MapAfter(w: World, list: seq<Item>, n: nat, it: Item, opts: ConsolidateOptions, now: Time): Metadata
    requires n <= |list|
  {
    var m, c := MetaOf(w.heap, it.meta), PromotionCount(w.heap, it);
    var k := if it.meta.Meta? then Stamps(c, RipeBefore(list, n, it.meta, opts, now)) else 0;
    if k == 0 then m else Stamping(m, now, c + k)
  }

  /** The world `w` of a call that started in `w0` and has dealt with the first `n` entries. */
  ghost predicate Stage(w0: World, w: World, list: seq<Item>, n: nat, opts: ConsolidateOptions, now: Time)
    requires n <= |list|
  {
    && Evolved(w0, w)
    && forall id :: id in w0.working ==>
         MetaOf(w.heap, w0.working[id].meta) == MapAfter(w0, list, n, w0.working[id], opts, now)
  }

  lemma StageStarts(w: World, list: seq<Item>, opts: ConsolidateOptions, now: Time)
    requires ValidWorld(w)
    ensures Stage(w, w, list, 0, opts, now)
  {
    EvolvedReflexive(w);
  }

  function CountIn(m: Metadata): int
  {
    PromotionCount(map[0 := m], Item("", "", [], 0.0, 0, 0, Meta(0)))
  }

  lemma CountOfMap(heap: Heap, it: Item)
    ensures PromotionCount(heap, it) == CountIn(MetaOf(heap, it.meta))
  {
  }

  lemma CountOfStamping(m: Metadata, now: Time, count: int)
    ensures CountIn(Stamping(m, now, count)) == count
  {
  }

  /** The count a listed item's map shows after the first `n` entries. */
  lemma CountAfter(w0: World, w: World, list: seq<Item>, n: nat, opts: ConsolidateOptions, now: Time, id: string)
    requires n <= |list| && Stage(w0, w, list, n, opts, now) && id in w0.working && w0.working[id].meta.Meta?
    ensures var it := w0.working[id];
            var c := PromotionCount(w0.heap, it);
            PromotionCount(w.heap, it) == c + Stamps(c, RipeBefore(list, n, it.meta, opts, now))
  {
    hide Evolved, Ripe;
    var it := w0.working[id];
    CountOfMap(w.heap, it);
    CountOfMap(w0.heap, it);
    var c := PromotionCount(w0.heap, it);
    CountOfStamping(MetaOf(w0.heap, it.meta), now, c + Stamps(c, RipeBefore(list, n, it.meta, opts, now)));
  }

  /** The check the loop makes is the choice made before the call. */
  lemma EligibleIffChosen(w0: World, w: World, list: seq<Item>, n: nat, opts: ConsolidateOptions, now: Time)
    requires FromSnapshot(list, w0) && n < |list| && Stage(w0, w, list, n, opts, now)
    ensures Eligible(w.heap, list[n], opts, now) <==> Chosen(w0, list, n, opts, now)
  {
    if list[n].meta.Meta? {
      CountAfter(w0, w, list, n, opts, now, list[n].id);
    }
  }

  lemma SkippedKeepsStage(w0: World, w: World, list: seq<Item>, n: nat, opts: ConsolidateOptions, now: Time)
    requires FromSnapshot(list, w0) && n < |list| && Stage(w0, w, list, n, opts, now)
    requires !Chosen(w0, list, n, opts, now)
    ensures Stage(w0, w, list, n + 1, opts, now)
  {
    hide Evolved, Ripe;
    forall id | id in w0.working
      ensures MapAfter(w0, list, n + 1, w0.working[id], opts, now) == MapAfter(w0, list, n, w0.working[id], opts, now)
    {
      SkippedKeepsMap(w0, list, n, w0.working[id], opts, now);
    }
  }

  lemma SkippedKeepsMap(w0: World, list: seq<Item>, n: nat, it: Item, opts: ConsolidateOptions, now: Time)
    requires n < |list| && !Chosen(w0, list, n, opts, now)
    ensures MapAfter(w0, list, n + 1, it, opts, now) == MapAfter(w0, list, n, it, opts, now)
  {
    hide Ripe;
    if list[n].meta == it.meta {
      CountByMeta(w0.heap, list[n], it);
    }
  }

  lemma PromotedKeepsStage(w0: World, w: World, list: seq<Item>, n: nat, opts: ConsolidateOptions, now: Time,
                           mint: nat -> string)
    requires ValidWorld(w0) && FromSnapshot(list, w0) && n < |list| && Stage(w0, w, list, n, opts, now)
    requires Chosen(w0, list, n, opts, now)
    ensures Stage(w0, PromoteOne(w, list[n], now, mint), list, n + 1, opts, now)
  {
    var it := list[n];
    PromotionEvolves(w0, w, it, now, mint);
    hide Evolved, PromoteOne;
    forall id | id in w0.working
      ensures MetaOf(PromoteOne(w, it, now, mint).heap, w0.working[id].meta) ==
              MapAfter(w0, list, n + 1, w0.working[id], opts, now)
    {
      if w0.working[id].meta.Meta? {
        PromotedMap(w0, w, list, n, opts, now, mint, id);
      }
    }
  }

  lemma PromotedMap(w0: World, w: World, list: seq<Item>, n: nat, opts: ConsolidateOptions, now: Time,
                    mint: nat -> string, id: string)
    requires ValidWorld(w0) && FromSnapshot(list, w0) && n < |list| && Stage(w0, w, list, n, opts, now)
    requires Chosen(w0, list, n, opts, now) && id in w0.working && w0.working[id].meta.Meta?
    ensures MetaOf(PromoteOne(w, list[n], now, mint).heap, w0.working[id].meta) ==
            MapAfter(w0, list, n + 1, w0.working[id], opts, now)
  {
    var src := w0.working[id];
    assert src.meta.addr in w0.heap && MetaOf(w.heap, src.meta) == MapAfter(w0, list, n, src, opts, now);
    if src.meta == list[n].meta {
      CountAfter(w0, w, list, n, opts, now, list[n].id);
      hide *;
      MapIsStamped(w0, w, list, n, src, opts, now, mint);
    } else {
      hide *;
      PromotionWrites(w0, w, list[n], now, mint, src.meta);
      MapOfOthers(w0, list, n, src, opts, now);
    }
  }

  lemma MapIsStamped(w0: World, w: World, list: seq<Item>, n: nat, src: Item, opts: ConsolidateOptions, now: Time,
                     mint: nat -> string)
    requires ValidWorld(w0) && Evolved(w0, w) && n < |list| && Chosen(w0, list, n, opts, now)
    requires list[n].id in w0.working && w0.working[list[n].id] == list[n]
    requires src.meta == list[n].meta && src.meta.Meta? && src.meta.addr in w0.heap
    requires MetaOf(w.heap, src.meta) == MapAfter(w0, list, n, src, opts, now)
    requires var c := PromotionCount(w0.heap, list[n]);
             PromotionCount(w.heap, list[n]) == c + Stamps(c, RipeBefore(list, n, list[n].meta, opts, now))
    ensures MetaOf(PromoteOne(w, list[n], now, mint).heap, src.meta) == MapAfter(w0, list, n + 1, src, opts, now)
  {
    hide *;
    PromotionWrites(w0, w, list[n], now, mint, src.meta);
    CountByMeta(w0.heap, list[n], src);
    MapOfChosen(w0, list, n, src, opts, now);
    var c := PromotionCount(w0.heap, src) + RipeBefore(list, n, src.meta, opts, now);
    Restamped(MetaOf(w0.heap, src.meta), now, c, c + 1);
  }

  lemma MapOfOthers(w: World, list: seq<Item>, n: nat, it: Item, opts: ConsolidateOptions, now: Time)
    requires n < |list| && it.meta != list[n].meta
    ensures MapAfter(w, list, n + 1, it, opts, now) == MapAfter(w, list, n, it, opts, now)
  {
  }

  lemma MapOfChosen(w: World, list: seq<Item>, n: nat, it: Item, opts: ConsolidateOptions, now: Time)
    requires n < |list| && Chosen(w, list, n, opts, now) && it.meta.Meta? && it.meta == list[n].meta
    ensures var m, c, t := MetaOf(w.heap, it.meta), PromotionCount(w.heap, it), RipeBefore(list, n, it.meta, opts, now);
            && Stamps(c, t) == t
            && MapAfter(w, list, n, it, opts, now) == (if t == 0 then m else Stamping(m, now, c + t))
            && MapAfter(w, list, n + 1, it, opts, now) == Stamping(m, now, c + t + 1)
  {
    CountByMeta(w.heap, it, list[n]);
    hide Stamping, PromotionCount, Ripe;
  }

  lemma Restamped(m: Metadata, now: Time, c: int, c': int)
    ensures Stamping(Stamping(m, now, c), now, c') == Stamping(m, now, c')
  {
  }

  // ----- The whole call -----

  /**
   * How a call that would promote `ids` ends: after as many of them as the backend lets through, in
   * order, with the failure of the first one it does not.
   */
  ghost predicate FollowsChoice(o: Outcome, ids: seq<string>, backend: Backend)
  {
    var n := |o.promoted|;
    && o.promoted <= ids
    && (forall k :: 0 <= k < n ==> backend.addOk(k) && backend.stampOk(k))
    && (n < |ids| ==> !(backend.addOk(n) && backend.stampOk(n)))
    && o.failure == (if n == |ids| then Nothing else if backend.addOk(n) then StampFailed else AddFailed)
  }

  /** How a call ends: as chosen and, if it succeeds, with all its stamps in place. */
  ghost predicate EndsAsChosen(w: World, list: seq<Item>, opts: ConsolidateOptions, now: Time, backend: Backend,
                               o: Outcome)
  {
    && FollowsChoice(o, ChosenIds(w, list, |list|, opts, now), backend)
    && (o.failure == Nothing ==> Stage(w, o.world, list, |list|, opts, now))
  }

  ghost predicate AllOkBefore(backend: Backend, n: nat)
  {
    forall k :: 0 <= k < n ==> backend.addOk(k) && backend.stampOk(k)
  }

  lemma {:induction false} CallFrom(w0: World, w: World, list: seq<Item>, n: nat, opts: ConsolidateOptions, now: Time,
                                    mint: nat -> string, backend: Backend, done: seq<string>)
    requires ValidWorld(w0) && FromSnapshot(list, w0) && n <= |list| && Stage(w0, w, list, n, opts, now)
    requires done == ChosenIds(w0, list, n, opts, now) && AllOkBefore(backend, |done|)
    ensures EndsAsChosen(w0, list, opts, now, backend, Promote(w, list[n..], opts, now, mint, backend, done))
    decreases |list| - n
  {
    hide *;
    if n == |list| {
      EndsHere(w0, w, list, opts, now, mint, backend, done);
      return;
    }
    NextEntry(w0, w, list, n, opts, now, mint, backend, done);
    if !Chosen(w0, list, n, opts, now) {
      SkippedKeepsStage(w0, w, list, n, opts, now);
      CallFrom(w0, w, list, n + 1, opts, now, mint, backend, done);
    } else if backend.addOk(|done|) && backend.stampOk(|done|) {
      PromotedKeepsStage(w0, w, list, n, opts, now, mint);
      OneMoreOk(backend, |done|);
      CallFrom(w0, PromoteOne(w, list[n], now, mint), list, n + 1, opts, now, mint, backend, done + [list[n].id]);
    } else {
      StopsHere(w0, list, n, opts, now, backend, Promote(w, list[n..], opts, now, mint, backend, done));
    }
  }

  lemma EndsHere(w0: World, w: World, list: seq<Item>, opts: ConsolidateOptions, now: Time,
                 mint: nat -> string, backend: Backend, done: seq<string>)
    requires Stage(w0, w, list, |list|, opts, now)
    requires done == ChosenIds(w0, list, |list|, opts, now) && AllOkBefore(backend, |done|)
    ensures EndsAsChosen(w0, list, opts, now, backend, Promote(w, list[|list|..], opts, now, mint, backend, done))
  {
    assert list[|list|..] == [];
    hide Stage, ChosenIds;
  }

  /** What the call does with entry `n`. */
  lemma NextEntry(w0: World, w: World, list: seq<Item>, n: nat, opts: ConsolidateOptions, now: Time,
                  mint: nat -> string, backend: Backend, done: seq<string>)
    requires ValidWorld(w0) && FromSnapshot(list, w0) && n < |list| && Stage(w0, w, list, n, opts, now)
    ensures list[n].id in w.working
    ensures ChosenIds(w0, list, n + 1, opts, now) ==
            ChosenIds(w0, list, n, opts, now) + (if Chosen(w0, list, n, opts, now) then [list[n].id] else [])
    ensures var o := Promote(w, list[n..], opts, now, mint, backend, done);
            if !Chosen(w0, list, n, opts, now) then o == Promote(w, list[n + 1..], opts, now, mint, backend, done)
            else if !backend.addOk(|done|) then o == Outcome(w, done, AddFailed)
            else if !backend.stampOk(|done|) then o == Outcome(AddClone(w, list[n], now, mint), done, StampFailed)
            else o == Promote(PromoteOne(w, list[n], now, mint), list[n + 1..], opts, now, mint, backend,
                              done + [list[n].id])
  {
    assert list[n..][0] == list[n] && list[n..][1..] == list[n + 1..];
    assert list[n].id in w.working by { assert Evolved(w0, w); }
    EligibleIffChosen(w0, w, list, n, opts, now);
    ChosenNext(w0, list, n, opts, now);
    hide *;
    FirstStep(w, list[n..], opts, now, mint, backend, done);
  }

  lemma OneMoreOk(backend: Backend, n: nat)
    requires AllOkBefore(backend, n) && backend.addOk(n) && backend.stampOk(n)
    ensures AllOkBefore(backend, n + 1)
  {
  }

  lemma StopsHere(w: World, list: seq<Item>, n: nat, opts: ConsolidateOptions, now: Time, backend: Backend, o: Outcome)
    requires n < |list| && Chosen(w, list, n, opts, now) && o.promoted == ChosenIds(w, list, n, opts, now)
    requires AllOkBefore(backend, |o.promoted|)
    requires !backend.addOk(|o.promoted|) || !backend.stampOk(|o.promoted|)
    requires o.failure == if backend.addOk(|o.promoted|) then StampFailed else AddFailed
    ensures EndsAsChosen(w, list, opts, now, backend, o)
  {
    ChosenPrefix(w, list, n + 1, |list|, opts, now);
    hide Chosen;
    assert ChosenIds(w, list, n, opts, now) < ChosenIds(w, list, |list|, opts, now);
  }

  /**
   * A call promotes the chosen entries of its listing, in order, up to the first backend failure;
   * when it succeeds every map holds exactly the stamps of the chosen entries that refer to it.
   */
  lemma PromotesTheChosen(w: World, list: seq<Item>, opts: ConsolidateOptions, now: Time,
                          mint: nat -> string, backend: Backend)
    requires ValidWorld(w) && FromSnapshot(list, w)
    ensures EndsAsChosen(w, list, opts, now, backend, Promote(w, list, opts, now, mint, backend, []))
  {
    StageStarts(w, list, opts, now);
    assert list[0..] == list;
    CallFrom(w, w, list, 0, opts, now, mint, backend, []);
  }

  /** Without backend failures all chosen entries are promoted. */
  lemma AllChosenPromoted(w: World, list: seq<Item>, opts: ConsolidateOptions, now: Time,
                          mint: nat -> string, backend: Backend)
    requires ValidWorld(w) && FromSnapshot(list, w) && AllOk(backend)
    ensures var o := Promote(w, list, opts, now, mint, backend, []);
            o.failure == Nothing && o.promoted == ChosenIds(w, list, |list|, opts, now)
  {
    hide Promote, ChosenIds, Stage;
    PromotesTheChosen(w, list, opts, now, mint, backend);
  }

  // ----- How often an item is promoted -----

  /** The same item is chosen at two places. */
  ghost predicate ChoosesTwice(w: World, list: seq<Item>, opts: ConsolidateOptions, now: Time)
  {
    exists i, j :: 0 <= i < j < |list| && list[i].id == list[j].id
                   && Chosen(w, list, i, opts, now) && Chosen(w, list, j, opts, now)
  }

  lemma DistinctIffChosenOnce(w: World, list: seq<Item>, opts: ConsolidateOptions, now: Time)
    ensures Distinct(ChosenIds(w, list, |list|, opts, now)) <==> !ChoosesTwice(w, list, opts, now)
  {
    var c := ChosenAt(w, list, |list|, opts, now);
    hide *;
    ChosenAtIsExact(w, list, |list|, opts, now);
    assert ChosenIds(w, list, |list|, opts, now) == IdsAt(list, c) by { IdsOfChosen(w, list, opts, now); }
    if ChoosesTwice(w, list, opts, now) {
      var i, j := TwoPlaces(w, list, opts, now);
      RepeatedId(list, c, i, j);
    } else if !Distinct(IdsAt(list, c)) {
      var a, b := SamePlaceIds(list, c);
      assert c[a] in c && c[b] in c;
      NotTwice(w, list, opts, now, c[a], c[b]);
    }
  }

  lemma IdsOfChosen(w: World, list: seq<Item>, opts: ConsolidateOptions, now: Time)
    ensures ChosenIds(w, list, |list|, opts, now) == IdsAt(list, ChosenAt(w, list, |list|, opts, now))
  {
  }

  lemma TwoPlaces(w: World, list: seq<Item>, opts: ConsolidateOptions, now: Time) returns (i: nat, j: nat)
    requires ChoosesTwice(w, list, opts, now)
    ensures i < j < |list| && list[i].id == list[j].id
    ensures Chosen(w, list, i, opts, now) && Chosen(w, list, j, opts, now)
  {
    hide Chosen;
    i, j :| 0 <= i < j < |list| && list[i].id == list[j].id
            && Chosen(w, list, i, opts, now) && Chosen(w, list, j, opts, now);
  }

  lemma NotTwice(w: World, list: seq<Item>, opts: ConsolidateOptions, now: Time, i: nat, j: nat)
    requires !ChoosesTwice(w, list, opts, now) && i < j < |list|
    requires Chosen(w, list, i, opts, now) && Chosen(w, list, j, opts, now)
    ensures list[i].id != list[j].id
  {
    hide Chosen;
  }

  lemma RepeatedId(list: seq<Item>, c: seq<nat>, i: nat, j: nat)
    requires forall k :: 0 <= k < |c| ==> c[k] < |list|
    requires i in c && j in c && i != j && i < |list| && j < |list| && list[i].id == list[j].id
    ensures !Distinct(IdsAt(list, c))
  {
    var a :| 0 <= a < |c| && c[a] == i;
    var b :| 0 <= b < |c| && c[b] == j;
    assert IdsAt(list, c)[a] == IdsAt(list, c)[b];
  }

  lemma SamePlaceIds(list: seq<Item>, c: seq<nat>) returns (a: nat, b: nat)
    requires forall k :: 0 <= k < |c| ==> c[k] < |list|
    requires !Distinct(IdsAt(list, c))
    ensures a < b < |c| && list[c[a]].id == list[c[b]].id
  {
    a, b :| 0 <= a < b < |IdsAt(list, c)| && IdsAt(list, c)[a] == IdsAt(list, c)[b];
  }

  /** When no backend call fails, no item is promoted twice if and only if none is chosen at two places. */
  lemma PromotedOnceIff(w: World, list: seq<Item>, opts: ConsolidateOptions, now: Time,
                        mint: nat -> string, backend: Backend)
    requires ValidWorld(w) && FromSnapshot(list, w) && AllOk(backend)
    ensures Distinct(Promote(w, list, opts, now, mint, backend, []).promoted) <==> !ChoosesTwice(w, list, opts, now)
  {
    hide *;
    AllChosenPromoted(w, list, opts, now, mint, backend);
    DistinctIffChosenOnce(w, list, opts, now);
  }

  /** At most once, also when a backend call fails. */
  lemma OncePerCall(w: World, list: seq<Item>, opts: ConsolidateOptions, now: Time,
                    mint: nat -> string, backend: Backend)
    requires ValidWorld(w) && FromSnapshot(list, w) && !ChoosesTwice(w, list, opts, now)
    ensures Distinct(Promote(w, list, opts, now, mint, backend, []).promoted)
  {
    hide Promote, ChosenIds, ChoosesTwice, Stage;
    PromotesTheChosen(w, list, opts, now, mint, backend);
    DistinctIffChosenOnce(w, list, opts, now);
  }

  /** Where a promoted ID was chosen. */
  lemma PromotedWasChosen(w: World, list: seq<Item>, opts: ConsolidateOptions, now: Time,
                          mint: nat -> string, backend: Backend, id: string) returns (p: nat)
    requires ValidWorld(w) && FromSnapshot(list, w)
    requires id in Promote(w, list, opts, now, mint, backend, []).promoted
    ensures p < |list| && list[p].id == id && Chosen(w, list, p, opts, now)
  {
    hide Promote, Stage, Chosen;
    PromotesTheChosen(w, list, opts, now, mint, backend);
    ChosenAtIsExact(w, list, |list|, opts, now);
    var c := ChosenAt(w, list, |list|, opts, now);
    var k :| 0 <= k < |c| && IdsAt(list, c)[k] == id;
    p := c[k];
    assert p in c;
  }

  lemma {:induction false} RipeBeforeGrows(list: seq<Item>, i: nat, j: nat, opts: ConsolidateOptions, now: Time)
    requires i < j <= |list| && Ripe(list[i], opts, now)
    ensures RipeBefore(list, j, list[i].meta, opts, now) > RipeBefore(list, i, list[i].meta, opts, now)
  {
    if i + 1 < j {
      RipeBeforeGrows(list, i, j - 1, opts, now);
    }
  }

  /** An item with a metadata map and no negative count is never chosen twice, however often it is listed. */
  lemma MappedItemsPromotedOnce(w: World, list: seq<Item>, opts: ConsolidateOptions, now: Time, i: nat, j: nat)
    requires FromSnapshot(list, w) && i < j < |list| && list[i].id == list[j].id
    requires list[i].meta.Meta? && PromotionCount(w.heap, list[i]) >= 0
    ensures !(Chosen(w, list, i, opts, now) && Chosen(w, list, j, opts, now))
  {
    if Chosen(w, list, i, opts, now) {
      RipeBeforeGrows(list, i, j, opts, now);
    }
  }

  /** No other working item refers to the map of `it`. */
  ghost predicate OwnMap(w: World, it: Item)
  {
    forall id :: id in w.working && id != it.id ==> w.working[id].meta != it.meta
  }

  /** How often `id` occurs among the first `n` entries. */
  function Listed(list: seq<Item>, n: nat, id: string): nat
    requires n <= |list|
  {
    if n == 0 then 0 else Listed(list, n - 1, id) + (if list[n - 1].id == id then 1 else 0)
  }

  lemma {:induction false} ListedIsRipe(w: World, list: seq<Item>, n: nat, it: Item, opts: ConsolidateOptions,
                                        now: Time)
    requires FromSnapshot(list, w) && n <= |list| && it.id in w.working && w.working[it.id] == it
    requires OwnMap(w, it) && Ripe(it, opts, now)
    ensures RipeBefore(list, n, it.meta, opts, now) == Listed(list, n, it.id)
  {
    if n > 0 {
      ListedIsRipe(w, list, n - 1, it, opts, now);
    }
  }

  lemma {:induction false} ChosenTimes(w: World, list: seq<Item>, n: nat, it: Item, opts: ConsolidateOptions, now: Time)
    requires FromSnapshot(list, w) && n <= |list| && it.id in w.working && w.working[it.id] == it
    requires (it.meta.NilMeta? || OwnMap(w, it)) && Ripe(it, opts, now)
    ensures multiset(ChosenIds(w, list, n, opts, now))[it.id] ==
            if it.meta.NilMeta? then Listed(list, n, it.id)
            else Stamps(PromotionCount(w.heap, it), Listed(list, n, it.id))
  {
    hide *;
    if n == 0 {
      NoneChosenYet(w, list, it, opts, now);
    } else {
      ChosenTimes(w, list, n - 1, it, opts, now);
      ChosenNext(w, list, n - 1, opts, now);
      ChosenAgain(w, list, n - 1, it, opts, now);
    }
  }

  lemma NoneChosenYet(w: World, list: seq<Item>, it: Item, opts: ConsolidateOptions, now: Time)
    ensures ChosenIds(w, list, 0, opts, now) == [] && Listed(list, 0, it.id) == 0
    ensures Stamps(PromotionCount(w.heap, it), 0) == 0
  {
  }

  /** Whether the next entry adds to the number of promotions of `it`. */
  lemma ChosenAgain(w: World, list: seq<Item>, n: nat, it: Item, opts: ConsolidateOptions, now: Time)
    requires FromSnapshot(list, w) && n < |list| && it.id in w.working && w.working[it.id] == it
    requires (it.meta.NilMeta? || OwnMap(w, it)) && Ripe(it, opts, now)
    ensures var t, t' := Listed(list, n, it.id), Listed(list, n + 1, it.id);
            var more := if list[n].id == it.id && Chosen(w, list, n, opts, now) then 1 else 0;
            var c := PromotionCount(w.heap, it);
            && (it.meta.NilMeta? ==> t' == t + more)
            && (it.meta.Meta? ==> Stamps(c, t') == Stamps(c, t) + more)
  {
    if it.meta.Meta? {
      ListedIsRipe(w, list, n, it, opts, now);
    }
    hide OwnMap, PromotionCount, RipeBefore;
  }

  /**
   * How often a ripe item is promoted by a call without backend failures: every time it is listed if
   * it has no metadata map, and until its count reaches one if it has a map of its own.
   */
  lemma PromotedTimes(w: World, list: seq<Item>, opts: ConsolidateOptions, now: Time,
                      mint: nat -> string, backend: Backend, it: Item)
    requires ValidWorld(w) && FromSnapshot(list, w) && AllOk(backend)
    requires it.id in w.working && w.working[it.id] == it && Ripe(it, opts, now)
    requires it.meta.NilMeta? || OwnMap(w, it)
    ensures var n := Listed(list, |list|, it.id);
            multiset(Promote(w, list, opts, now, mint, backend, []).promoted)[it.id] ==
            if it.meta.NilMeta? then n else Stamps(PromotionCount(w.heap, it), n)
  {
    hide *;
    AllChosenPromoted(w, list, opts, now, mint, backend);
    ChosenTimes(w, list, |list|, it, opts, now);
  }

  /**
   * In the items' own fields: a call that succeeds promotes an item without map, or with a map of its own, exactly
   * when it is listed, reaches the threshold and the minimum age, and has a count below one.
   */
  lemma PromotedIff(w: World, list: seq<Item>, opts: ConsolidateOptions, now: Time, mint: nat -> string,
                    backend: Backend, it: Item)
    requires ValidWorld(w) && FromSnapshot(list, w) && it.id in w.working && w.working[it.id] == it
    requires Promote(w, list, opts, now, mint, backend, []).failure == Nothing
    requires it.meta.NilMeta? || OwnMap(w, it)
    ensures it.id in Promote(w, list, opts, now, mint, backend, []).promoted <==>
            && it in list
            && it.importance >= (if opts.threshold <= 0.0 then 0.7 else opts.threshold)
            && (opts.minAge > 0 ==> now - it.createdAt >= opts.minAge)
            && PromotionCount(w.heap, it) < 1
  {
    var o := Promote(w, list, opts, now, mint, backend, []);
    assert it.meta.NilMeta? ==> PromotionCount(w.heap, it) == 0;
    SuccessPromotesTheChosen(w, list, opts, now, mint, backend);
    hide Promote, ChosenIds, Listed, PromotionCount, ValidWorld, OwnMap;
    ListedIff(w, list, |list|, it);
    assert list[..|list|] == list;
    if it.id in o.promoted {
      PromotedMeetTheBar(w, list, opts, now, mint, backend, [], it.id);
    }
    if Ripe(it, opts, now) {
      ChosenTimes(w, list, |list|, it, opts, now);
    }
  }

  lemma {:induction false} ListedIff(w: World, list: seq<Item>, n: nat, it: Item)
    requires FromSnapshot(list, w) && n <= |list| && it.id in w.working && w.working[it.id] == it
    ensures Listed(list, n, it.id) >= 1 <==> it in list[..n]
  {
    if n > 0 {
      ListedIff(w, list, n - 1, it);
      assert list[..n] == list[..n - 1] + [list[n - 1]];
    }
  }

  lemma SuccessPromotesTheChosen(w: World, list: seq<Item>, opts: ConsolidateOptions, now: Time,
                                 mint: nat -> string, backend: Backend)
    requires ValidWorld(w) && FromSnapshot(list, w)
    requires Promote(w, list, opts, now, mint, backend, []).failure == Nothing
    ensures Promote(w, list, opts, now, mint, backend, []).promoted == ChosenIds(w, list, |list|, opts, now)
  {
    hide Promote, ChosenIds, Stage, ValidWorld, FromSnapshot;
    PromotesTheChosen(w, list, opts, now, mint, backend);
  }

  // ----- When repeats matter -----

  /** A ripe item that does not remember its next promotion: it has no map, or a negative count. */
  predicate Uncounted(w: World, it: Item, opts: ConsolidateOptions, now: Time)
  {
    Ripe(it, opts, now) && (it.meta.NilMeta? || PromotionCount(w.heap, it) < 0)
  }

  ghost predicate RepeatsUncounted(w: World, list: seq<Item>, opts: ConsolidateOptions, now: Time)
  {
    exists i, j :: 0 <= i < j < |list| && list[i].id == list[j].id && Uncounted(w, list[i], opts, now)
  }

  /** Items with negative counts do not share their maps. */
  ghost predicate OwnNegatives(w: World)
  {
    forall id :: id in w.working && PromotionCount(w.heap, w.working[id]) < 0 ==> OwnMap(w, w.working[id])
  }

  /** The `t`-th ripe entry on a map. */
  lemma {:induction false} EntryAt(list: seq<Item>, n: nat, ref: MetaRef, opts: ConsolidateOptions, now: Time, t: nat)
    returns (p: nat)
    requires n <= |list| && RipeBefore(list, n, ref, opts, now) > t
    ensures p < n && list[p].meta == ref && Ripe(list[p], opts, now) && RipeBefore(list, p, ref, opts, now) == t
  {
    if RipeBefore(list, n - 1, ref, opts, now) > t {
      p := EntryAt(list, n - 1, ref, opts, now, t);
    } else {
      p := n - 1;
    }
  }

  lemma ChosenAtTurn(w: World, list: seq<Item>, n: nat, it: Item, opts: ConsolidateOptions, now: Time, t: nat)
    returns (p: nat)
    requires FromSnapshot(list, w) && n <= |list| && OwnMap(w, it)
    requires RipeBefore(list, n, it.meta, opts, now) > t && PromotionCount(w.heap, it) + t < 1
    ensures p < |list| && list[p].id == it.id && Chosen(w, list, p, opts, now)
    ensures RipeBefore(list, p, it.meta, opts, now) == t
  {
    p := EntryAt(list, n, it.meta, opts, now, t);
    CountByMeta(w.heap, it, list[p]);
    hide RipeBefore, PromotionCount, Ripe;
  }

  lemma RipeTwice(list: seq<Item>, i: nat, j: nat, opts: ConsolidateOptions, now: Time)
    requires i < j < |list| && list[i].meta == list[j].meta && Ripe(list[i], opts, now) && Ripe(list[j], opts, now)
    ensures RipeBefore(list, j + 1, list[i].meta, opts, now) >= 2
  {
    RipeBeforeGrows(list, i, j, opts, now);
  }

  lemma NegativeChosenTwice(w: World, list: seq<Item>, opts: ConsolidateOptions, now: Time, i: nat, j: nat)
    requires FromSnapshot(list, w) && OwnNegatives(w)
    requires i < j < |list| && list[i].id == list[j].id && Ripe(list[i], opts, now)
    requires PromotionCount(w.heap, list[i]) < 0
    ensures ChoosesTwice(w, list, opts, now)
  {
    assert OwnMap(w, list[i]) && list[i].meta == list[j].meta && Ripe(list[j], opts, now) by { hide OwnMap; }
    hide *;
    RipeTwice(list, i, j, opts, now);
    var p := ChosenAtTurn(w, list, j + 1, list[i], opts, now, 0);
    var q := ChosenAtTurn(w, list, j + 1, list[i], opts, now, 1);
    Twice(w, list, opts, now, p, q);
  }

  lemma Twice(w: World, list: seq<Item>, opts: ConsolidateOptions, now: Time, i: nat, j: nat)
    requires i < |list| && j < |list| && i != j && list[i].id == list[j].id
    requires Chosen(w, list, i, opts, now) && Chosen(w, list, j, opts, now)
    ensures ChoosesTwice(w, list, opts, now)
  {
    hide Chosen;
    assert i < j || j < i;
  }

  /** Repeats in a listing cause double promotions exactly for items that cannot remember one. */
  lemma ChoosesTwiceIff(w: World, list: seq<Item>, opts: ConsolidateOptions, now: Time)
    requires FromSnapshot(list, w) && OwnNegatives(w)
    ensures ChoosesTwice(w, list, opts, now) <==> RepeatsUncounted(w, list, opts, now)
  {
    if ChoosesTwice(w, list, opts, now) {
      var i, j :| 0 <= i < j < |list| && list[i].id == list[j].id
                  && Chosen(w, list, i, opts, now) && Chosen(w, list, j, opts, now);
      if list[i].meta.Meta? && PromotionCount(w.heap, list[i]) >= 0 {
        MappedItemsPromotedOnce(w, list, opts, now, i, j);
      }
    }
    if RepeatsUncounted(w, list, opts, now) {
      var i, j :| 0 <= i < j < |list| && list[i].id == list[j].id && Uncounted(w, list[i], opts, now);
      if PromotionCount(w.heap, list[i]) < 0 {
        NegativeChosenTwice(w, list, opts, now, i, j);
      } else {
        assert Chosen(w, list, i, opts, now) && Chosen(w, list, j, opts, now);
      }
    }
  }
}
