/** What consolidation guarantees, call by call. */
module ConsolidationProofs {
  import opened Types
  import opened ScoredStore
  import opened Consolidation

  /** References point to allocated maps, and allocation is fresh. */
  ghost predicate ValidWorld(w: World)
  {
    && WellFormed(w.working)
    && (forall a :: a in w.heap ==> a < w.next)
    && (forall id :: id in w.working && w.working[id].meta.Meta? ==> w.working[id].meta.addr in w.heap)
  }

  /** Counts written by the consolidator are never negative; a caller could store a negative one. */
  ghost predicate NonNegativeCounts(w: World)
  {
    forall id :: id in w.working ==> PromotionCount(w.heap, w.working[id]) >= 0
  }

  /** The metadata without the two keys a promotion writes on its source. */
  function Unstamped(heap: Heap, ref: MetaRef): Metadata
  {
    MetaOf(heap, ref) - {CONSOLIDATED_AT, PROMOTION_COUNT}
  }

  /** How a working item may differ after some promotions: only as a stamp changes it. */
  ghost predicate OnlyStamped(w: World, w': World, id: string)
    requires id in w.working && id in w'.working
  {
    var a, b := w.working[id], w'.working[id];
    && b.(meta := a.meta, accessedAt := a.accessedAt, importance := a.importance) == a
    && (b.importance == a.importance || b.importance == Clamp(a.importance))
    && (a.meta.Meta? ==> b.meta == a.meta)
    && (a.meta.NilMeta? && b.meta.Meta? ==> b.meta.addr >= w.next)
    && Unstamped(w'.heap, b.meta) == Unstamped(w.heap, a.meta)
    && PromotionCount(w'.heap, b) >= PromotionCount(w.heap, a)
  }

  ghost predicate Evolved(w: World, w': World)
  {
    && ValidWorld(w') && w.next <= w'.next
    && w'.working.Keys == w.working.Keys
    && forall id :: id in w.working ==> OnlyStamped(w, w', id)
  }

  lemma StampedTransitive(a: World, b: World, c: World, id: string)
    requires id in a.working && id in b.working && id in c.working && a.next <= b.next
    requires OnlyStamped(a, b, id) && OnlyStamped(b, c, id)
    ensures OnlyStamped(a, c, id)
  {
    hide Unstamped, PromotionCount;
  }

  lemma EvolvedTransitive(a: World, b: World, c: World)
    requires ValidWorld(a) && Evolved(a, b) && Evolved(b, c)
    ensures Evolved(a, c)
  {
    hide OnlyStamped;
    forall id | id in a.working
      ensures OnlyStamped(a, c, id)
    {
      StampedTransitive(a, b, c, id);
    }
  }

  lemma EvolvedReflexive(w: World)
    requires ValidWorld(w)
    ensures Evolved(w, w)
  {
  }

  lemma CloneEvolves(w: World, it: Item, now: Time, mint: nat -> string)
    requires ValidWorld(w)
    ensures Evolved(w, AddClone(w, it, now, mint))
  {
    var w' := AddClone(w, it, now, mint);
    forall id | id in w.working
      ensures OnlyStamped(w, w', id)
    {
      assert w.next !in w.heap;
      assert MetaOf(w'.heap, w.working[id].meta) == MetaOf(w.heap, w.working[id].meta);
    }
  }

  lemma StampEvolves(w: World, id: string, now: Time)
    requires ValidWorld(w) && id in w.working
    ensures Evolved(w, Stamp(w, id, now))
    ensures var w' := Stamp(w, id, now);
            PromotionCount(w'.heap, w'.working[id]) == PromotionCount(w.heap, w.working[id]) + 1
  {
    var w' := Stamp(w, id, now);
    assert CONSOLIDATED_AT != PROMOTION_COUNT;
    StampedMap(w, id, now);
    forall j | j in w.working
      ensures OnlyStamped(w, w', j)
    {
      StampedItem(w, id, now, j);
    }
  }

  lemma StampedMap(w: World, id: string, now: Time)
    requires ValidWorld(w) && id in w.working
    ensures var w' := Stamp(w, id, now);
            && w'.working[id].meta.Meta? && w'.working[id].meta.addr in w'.heap
            && PromotionCount(w'.heap, w'.working[id]) == PromotionCount(w.heap, w.working[id]) + 1
            && Unstamped(w'.heap, w'.working[id].meta) == Unstamped(w.heap, w.working[id].meta)
  {
    var w' := Stamp(w, id, now);
    var m, m' := MetaOf(w.heap, w.working[id].meta), MetaOf(w'.heap, w'.working[id].meta);
    assert m' == m[CONSOLIDATED_AT := TimeValue(now)]
                  [PROMOTION_COUNT := IntValue(PromotionCount(w.heap, w.working[id]) + 1)];
    assert m' - {CONSOLIDATED_AT, PROMOTION_COUNT} == m - {CONSOLIDATED_AT, PROMOTION_COUNT};
  }

  lemma StampedItem(w: World, id: string, now: Time, j: string)
    requires ValidWorld(w) && id in w.working && j in w.working
    ensures OnlyStamped(w, Stamp(w, id, now), j)
  {
    var w' := Stamp(w, id, now);
    StampedMap(w, id, now);
    hide Unstamped;
    if j != id {
      assert w'.working[j] == w.working[j];
      if w.working[j].meta == w'.working[id].meta {
        assert w.working[j].meta == w.working[id].meta;
        assert PromotionCount(w.heap, w.working[j]) == PromotionCount(w.heap, w.working[id]);
        assert PromotionCount(w'.heap, w'.working[j]) == PromotionCount(w'.heap, w'.working[id]);
      } else {
        SameMap(w.heap, w'.heap, w.working[j].meta);
      }
    }
  }

  lemma SameMap(heap: Heap, heap': Heap, ref: MetaRef)
    requires MetaOf(heap, ref) == MetaOf(heap', ref)
    ensures Unstamped(heap, ref) == Unstamped(heap', ref)
  {
  }

  // ----- One call -----

  /** The list holds working items as they are in `w`. */
  ghost predicate FromSnapshot(list: seq<Item>, w: World)
  {
    forall i :: 0 <= i < |list| ==> list[i].id in w.working && w.working[list[i].id] == list[i]
  }

  /** A call changes working items only as stamps do, and adds no working item. */
  lemma {:induction false} CallOnlyStamps(w: World, list: seq<Item>, opts: ConsolidateOptions, now: Time,
                                          mint: nat -> string, backend: Backend, done: seq<string>)
    requires ValidWorld(w)
    ensures Evolved(w, Promote(w, list, opts, now, mint, backend, done).world)
    decreases |list|
  {
    EvolvedReflexive(w);
    if list != [] {
      var it := list[0];
      if !Eligible(w.heap, it, opts, now) {
        CallOnlyStamps(w, list[1..], opts, now, mint, backend, done);
      } else if backend.addOk(|done|) {
        CloneEvolves(w, it, now, mint);
        var w' := AddClone(w, it, now, mint);
        if it.id in w'.working && backend.stampOk(|done|) {
          var w'' := Stamp(w', it.id, now);
          StampEvolves(w', it.id, now);
          hide Evolved;
          CallOnlyStamps(w'', list[1..], opts, now, mint, backend, done + [it.id]);
          EvolvedTransitive(w, w', w'');
          ValidAfter(w, w'');
          EvolvedTransitive(w, w'', Promote(w'', list[1..], opts, now, mint, backend, done + [it.id]).world);
        }
      }
    }
  }

  lemma ValidAfter(w: World, w': World)
    requires Evolved(w, w')
    ensures ValidWorld(w')
  {
  }

  /** A full promotion: the clone, then the stamp. */
  ghost function PromoteOne(w: World, it: Item, now: Time, mint: nat -> string): World
    requires it.id in w.working
  {
    Stamp(AddClone(w, it, now, mint), it.id, now)
  }

  /** What a call does with the first entry of its list. */
  lemma FirstStep(w: World, list: seq<Item>, opts: ConsolidateOptions, now: Time,
                  mint: nat -> string, backend: Backend, done: seq<string>)
    ensures var o := Promote(w, list, opts, now, mint, backend, done);
            if list == [] then o == Outcome(w, done, Nothing)
            else
              var it := list[0];
              if !Eligible(w.heap, it, opts, now) then o == Promote(w, list[1..], opts, now, mint, backend, done)
              else if !backend.addOk(|done|) then o == Outcome(w, done, AddFailed)
              else if it.id !in w.working || !backend.stampOk(|done|)
              then o == Outcome(AddClone(w, it, now, mint), done, StampFailed)
              else o == Promote(PromoteOne(w, it, now, mint), list[1..], opts, now, mint, backend, done + [it.id])
  {
  }

  /** One full promotion of a listed item. */
  lemma PromotionEvolves(w0: World, w: World, it: Item, now: Time, mint: nat -> string)
    requires ValidWorld(w0) && Evolved(w0, w) && it.id in w0.working
    ensures var w' := PromoteOne(w, it, now, mint);
            && Evolved(w, w') && Evolved(w0, w')
            && PromotionCount(w'.heap, w'.working[it.id]) == PromotionCount(w.heap, w.working[it.id]) + 1
  {
    assert it.id in w.working && ValidWorld(w);
    hide Evolved, OnlyStamped, ValidWorld;
    var w' := AddClone(w, it, now, mint);
    CloneEvolves(w, it, now, mint);
    ValidAfter(w, w');
    StampEvolves(w', it.id, now);
    CloneKeepsCount(w, it, now, mint, it.id);
    EvolvedTransitive(w, w', Stamp(w', it.id, now));
    EvolvedTransitive(w0, w, Stamp(w', it.id, now));
  }

  lemma CloneKeepsCount(w: World, it: Item, now: Time, mint: nat -> string, id: string)
    requires ValidWorld(w) && id in w.working
    ensures var w' := AddClone(w, it, now, mint);
            w'.working == w.working && PromotionCount(w'.heap, w'.working[id]) == PromotionCount(w.heap, w.working[id])
  {
    assert w.working[id].meta.Meta? ==> w.working[id].meta.addr in w.heap;
  }

  lemma CountByMeta(heap: Heap, a: Item, b: Item)
    requires a.meta == b.meta
    ensures PromotionCount(heap, a) == PromotionCount(heap, b)
  {
  }

  ghost predicate AllOk(backend: Backend)
  {
    forall n :: backend.addOk(n) && backend.stampOk(n)
  }

  // ----- Which maps one promotion writes -----

  /** The stored source still refers to the map it was listed with; without one, to none listed then. */
  lemma SourceMap(w0: World, w: World, it: Item)
    requires ValidWorld(w0) && Evolved(w0, w) && it.id in w0.working && w0.working[it.id] == it
    ensures it.meta.Meta? ==> w.working[it.id].meta == it.meta
    ensures it.meta.NilMeta? && w.working[it.id].meta.Meta? ==> w.working[it.id].meta.addr !in w0.heap
  {
    assert OnlyStamped(w0, w, it.id);
  }

  /** The two keys a promotion writes on its source. */
  function Stamping(m: Metadata, now: Time, count: int): Metadata
  {
    m[CONSOLIDATED_AT := TimeValue(now)][PROMOTION_COUNT := IntValue(count)]
  }

  /** A promotion stamps the map its source was listed with, and no other map allocated before. */
  lemma PromotionWrites(w0: World, w: World, it: Item, now: Time, mint: nat -> string, ref: MetaRef)
    requires ValidWorld(w0) && Evolved(w0, w) && it.id in w0.working && w0.working[it.id] == it
    requires ref.Meta? && ref.addr in w0.heap
    ensures MetaOf(PromoteOne(w, it, now, mint).heap, ref) ==
            if ref == it.meta then Stamping(MetaOf(w.heap, ref), now, PromotionCount(w.heap, it) + 1)
            else MetaOf(w.heap, ref)
  {
    assert it.id in w.working && ref.addr < w.next;
    SourceMap(w0, w, it);
    hide Evolved, ValidWorld;
    var w' := AddClone(w, it, now, mint);
    CloneWrites(w, it, now, mint, ref);
    StampWrites(w', it.id, now, ref);
    hide *;
    if ref == it.meta {
      CountOfMeta(w'.heap, w'.working[it.id], w.heap, it);
    }
  }

  lemma CloneWrites(w: World, it: Item, now: Time, mint: nat -> string, ref: MetaRef)
    requires ref.Meta? && ref.addr < w.next
    ensures MetaOf(AddClone(w, it, now, mint).heap, ref) == MetaOf(w.heap, ref)
    ensures AddClone(w, it, now, mint).next == w.next + 1 && AddClone(w, it, now, mint).working == w.working
  {
  }

  lemma CountOfMeta(heap: Heap, a: Item, heap': Heap, b: Item)
    requires MetaOf(heap, a.meta) == MetaOf(heap', b.meta)
    ensures PromotionCount(heap, a) == PromotionCount(heap', b)
  {
  }

  lemma StampWrites(w: World, id: string, now: Time, ref: MetaRef)
    requires id in w.working && ref.Meta? && ref.addr < w.next
    ensures MetaOf(Stamp(w, id, now).heap, ref) ==
            if ref == w.working[id].meta
            then Stamping(MetaOf(w.heap, ref), now, PromotionCount(w.heap, w.working[id]) + 1)
            else MetaOf(w.heap, ref)
  {
  }
}
