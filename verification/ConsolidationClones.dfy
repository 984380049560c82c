/** The clones a consolidation call leaves in the episodic tier. */
module ConsolidationClones {
  import opened Types
  import opened ScoredStore
  import opened Consolidation
  import opened ConsolidationProofs
  import opened ConsolidationExact

  /** `id` is a copy of `src` whose metadata map holds `meta` and belongs to no working item. */
  ghost predicate SeparateClone(w: World, id: string, src: Item, now: Time, meta: Metadata)
  {
    && id in w.episodic
    && var clone := w.episodic[id];
    && clone.id == id && clone.content == src.content && clone.tags == src.tags
    && clone.importance == Clamp(src.importance)
    && clone.createdAt == (if src.createdAt == ZERO_TIME then now else src.createdAt) && clone.accessedAt == now
    && clone.meta.Meta? && clone.meta.addr in w.heap && w.heap[clone.meta.addr] == meta
    && forall j :: j in w.working ==> w.working[j].meta != clone.meta
  }

  /** A copy of the map `m` with the reference back to the source. */
  function WithBackRef(m: Metadata, source: string): Metadata
  {
    m[PROMOTED_FROM := StringValue(source)]
  }

  lemma NewCloneIsSeparate(w: World, it: Item, now: Time, mint: nat -> string)
    requires ValidWorld(w)
    ensures SeparateClone(AddClone(w, it, now, mint), mint(w.minted + 1), it, now,
                          WithBackRef(MetaOf(w.heap, it.meta), it.id))
  {
    assert w.next !in w.heap;
  }

  lemma AddKeepsClone(w: World, it: Item, now: Time, mint: nat -> string, id: string, src: Item, meta: Metadata)
    requires ValidWorld(w) && SeparateClone(w, id, src, now, meta) && mint(w.minted + 1) != id
    ensures SeparateClone(AddClone(w, it, now, mint), id, src, now, meta)
  {
    assert w.next !in w.heap;
  }

  lemma StampKeepsClone(w: World, source: string, now: Time, id: string, src: Item, meta: Metadata)
    requires ValidWorld(w) && source in w.working && SeparateClone(w, id, src, now, meta)
    ensures SeparateClone(Stamp(w, source, now), id, src, now, meta)
  {
    assert w.working[source].meta != w.episodic[id].meta;
    assert w.next !in w.heap;
  }

  /** Full promotions keep the world valid and mint one ID each. */
  lemma PromotionMints(w: World, it: Item, now: Time, mint: nat -> string)
    requires ValidWorld(w) && it.id in w.working
    ensures ValidWorld(AddClone(w, it, now, mint)) && ValidWorld(PromoteOne(w, it, now, mint))
    ensures PromoteOne(w, it, now, mint).minted == w.minted + 1
  {
    CloneEvolves(w, it, now, mint);
    StampEvolves(AddClone(w, it, now, mint), it.id, now);
  }

  lemma PromotionKeepsClone(w: World, it: Item, now: Time, mint: nat -> string, id: string, src: Item, meta: Metadata)
    requires ValidWorld(w) && it.id in w.working && SeparateClone(w, id, src, now, meta) && mint(w.minted + 1) != id
    ensures SeparateClone(PromoteOne(w, it, now, mint), id, src, now, meta)
  {
    PromotionMints(w, it, now, mint);
    hide SeparateClone, ValidWorld;
    AddKeepsClone(w, it, now, mint, id, src, meta);
    StampKeepsClone(AddClone(w, it, now, mint), it.id, now, id, src, meta);
  }

  lemma CloneAfterPromotion(w: World, it: Item, now: Time, mint: nat -> string)
    requires ValidWorld(w) && it.id in w.working
    ensures SeparateClone(PromoteOne(w, it, now, mint), mint(w.minted + 1), it, now,
                          WithBackRef(MetaOf(w.heap, it.meta), it.id))
  {
    PromotionMints(w, it, now, mint);
    hide SeparateClone, ValidWorld;
    NewCloneIsSeparate(w, it, now, mint);
    StampKeepsClone(AddClone(w, it, now, mint), it.id, now, mint(w.minted + 1), it,
                    WithBackRef(MetaOf(w.heap, it.meta), it.id));
  }

  ghost predicate Injective(mint: nat -> string)
  {
    forall m, n :: mint(m) == mint(n) ==> m == n
  }

  /** Later promotions neither touch an earlier clone nor come to share its map. */
  lemma {:induction false} CallKeepsClone(w: World, list: seq<Item>, opts: ConsolidateOptions, now: Time,
                                          mint: nat -> string, backend: Backend, done: seq<string>,
                                          id: string, src: Item, meta: Metadata)
    requires ValidWorld(w) && SeparateClone(w, id, src, now, meta) && forall n :: n > w.minted ==> mint(n) != id
    ensures SeparateClone(Promote(w, list, opts, now, mint, backend, done).world, id, src, now, meta)
    decreases |list|
  {
    hide *;
    FirstStep(w, list, opts, now, mint, backend, done);
    if list != [] {
      var it := list[0];
      if !Eligible(w.heap, it, opts, now) {
        CallKeepsClone(w, list[1..], opts, now, mint, backend, done, id, src, meta);
      } else if backend.addOk(|done|) {
        if it.id in w.working && backend.stampOk(|done|) {
          PromotionMints(w, it, now, mint);
          PromotionKeepsClone(w, it, now, mint, id, src, meta);
          CallKeepsClone(PromoteOne(w, it, now, mint), list[1..], opts, now, mint, backend, done + [it.id],
                         id, src, meta);
        } else {
          AddKeepsClone(w, it, now, mint, id, src, meta);
        }
      }
    }
  }

  // ----- What the clones carry -----

  /** The map of the clone made for entry `p`: that of the source when its turn comes, and the back reference. */
  function ClonedMap(w: World, list: seq<Item>, p: nat, opts: ConsolidateOptions, now: Time): Metadata
    requires p < |list|
  {
    WithBackRef(MapAfter(w, list, p, list[p], opts, now), list[p].id)
  }

  /**
   * The clone carries the metadata its source had before the call, plus the back reference, if and
   * only if no ripe entry before it refers to the same map.
   */
  lemma CloneIsExactIff(w: World, list: seq<Item>, p: nat, opts: ConsolidateOptions, now: Time)
    requires p < |list| && Chosen(w, list, p, opts, now)
    ensures ClonedMap(w, list, p, opts, now) == WithBackRef(MetaOf(w.heap, list[p].meta), list[p].id) <==>
            list[p].meta.NilMeta? || RipeBefore(list, p, list[p].meta, opts, now) == 0
  {
    var it := list[p];
    var m, c, t := MetaOf(w.heap, it.meta), PromotionCount(w.heap, it), RipeBefore(list, p, it.meta, opts, now);
    if it.meta.Meta? && t > 0 {
      MapOfChosen(w, list, p, it, opts, now);
      CountOfMap(w.heap, it);
      CountOfStamping(m, now, c + t);
      hide RipeBefore, PromotionCount, Stamping;
      BackRefKeepsCount(m, it.id);
      BackRefKeepsCount(Stamping(m, now, c + t), it.id);
    }
  }

  lemma BackRefKeepsCount(m: Metadata, source: string)
    ensures CountIn(WithBackRef(m, source)) == CountIn(m)
  {
    assert PROMOTED_FROM != PROMOTION_COUNT by { assert |PROMOTED_FROM| != |PROMOTION_COUNT|; }
  }

  /** In particular whenever the stored count is not negative. */
  lemma CountedCloneIsExact(w: World, list: seq<Item>, p: nat, opts: ConsolidateOptions, now: Time)
    requires p < |list| && Chosen(w, list, p, opts, now) && PromotionCount(w.heap, list[p]) >= 0
    ensures ClonedMap(w, list, p, opts, now) == WithBackRef(MetaOf(w.heap, list[p].meta), list[p].id)
  {
    CloneIsExactIff(w, list, p, opts, now);
  }

  /** An item with count -1 that is listed twice: the second clone carries the stamp of the first promotion. */
  lemma NegativeCountSpoilsClone(w: World, it: Item, opts: ConsolidateOptions, now: Time)
    requires it.meta.Meta? && PromotionCount(w.heap, it) == -1 && Ripe(it, opts, now)
    ensures Chosen(w, [it, it], 1, opts, now)
    ensures ClonedMap(w, [it, it], 1, opts, now) != WithBackRef(MetaOf(w.heap, it.meta), it.id)
  {
    var list := [it, it];
    assert RipeBefore(list, 1, it.meta, opts, now) == RipeBefore(list, 0, it.meta, opts, now) + 1 == 1;
    CloneIsExactIff(w, list, 1, opts, now);
  }

  lemma FirstClone(w0: World, w: World, list: seq<Item>, n: nat, opts: ConsolidateOptions, now: Time,
                   mint: nat -> string, backend: Backend, done: seq<string>)
    requires ValidWorld(w0) && FromSnapshot(list, w0) && n < |list| && Stage(w0, w, list, n, opts, now)
    requires Chosen(w0, list, n, opts, now) && backend.addOk(|done|) && backend.stampOk(|done|) && Injective(mint)
    ensures SeparateClone(Promote(w, list[n..], opts, now, mint, backend, done).world, mint(w.minted + 1),
                          list[n], now, ClonedMap(w0, list, n, opts, now))
  {
    var it := list[n];
    assert ValidWorld(w) && MetaOf(w.heap, it.meta) == MapAfter(w0, list, n, it, opts, now);
    assert forall k :: k > w.minted + 1 ==> mint(k) != mint(w.minted + 1);
    assert ClonedMap(w0, list, n, opts, now) == WithBackRef(MetaOf(w.heap, it.meta), it.id);
    hide *;
    NextEntry(w0, w, list, n, opts, now, mint, backend, done);
    PromotionMints(w, it, now, mint);
    CloneAfterPromotion(w, it, now, mint);
    CallKeepsClone(PromoteOne(w, it, now, mint), list[n + 1..], opts, now, mint, backend, done + [it.id],
                   mint(w.minted + 1), it, ClonedMap(w0, list, n, opts, now));
  }

  lemma {:induction false} CloneFrom(w0: World, w: World, list: seq<Item>, n: nat, opts: ConsolidateOptions, now: Time,
                                     mint: nat -> string, backend: Backend, done: seq<string>, p: nat)
    requires ValidWorld(w0) && FromSnapshot(list, w0) && n <= p < |list| && Stage(w0, w, list, n, opts, now)
    requires done == ChosenIds(w0, list, n, opts, now) && Injective(mint)
    requires Chosen(w0, list, p, opts, now)
    requires |ChosenIds(w0, list, p, opts, now)| < |Promote(w, list[n..], opts, now, mint, backend, done).promoted|
    requires w.minted == w0.minted + |done|
    ensures SeparateClone(Promote(w, list[n..], opts, now, mint, backend, done).world,
                          mint(w0.minted + 1 + |ChosenIds(w0, list, p, opts, now)|),
                          list[p], now, ClonedMap(w0, list, p, opts, now))
    decreases p - n
  {
    hide *;
    NextEntry(w0, w, list, n, opts, now, mint, backend, done);
    ChosenLength(w0, list, n, p, opts, now);
    if !Chosen(w0, list, n, opts, now) {
      SkippedKeepsStage(w0, w, list, n, opts, now);
      CloneFrom(w0, w, list, n + 1, opts, now, mint, backend, done, p);
    } else if backend.addOk(|done|) && backend.stampOk(|done|) {
      if p == n {
        FirstClone(w0, w, list, n, opts, now, mint, backend, done);
      } else {
        PromotedKeepsStage(w0, w, list, n, opts, now, mint);
        StageIsValid(w0, w, list, n, opts, now);
        PromotionMints(w, list[n], now, mint);
        CloneFrom(w0, PromoteOne(w, list[n], now, mint), list, n + 1, opts, now, mint, backend,
                  done + [list[n].id], p);
      }
    }
  }

  lemma StageIsValid(w0: World, w: World, list: seq<Item>, n: nat, opts: ConsolidateOptions, now: Time)
    requires n <= |list| && Stage(w0, w, list, n, opts, now)
    ensures ValidWorld(w)
  {
  }

  lemma ChosenLength(w: World, list: seq<Item>, n: nat, m: nat, opts: ConsolidateOptions, now: Time)
    requires n <= m <= |list|
    ensures |ChosenIds(w, list, n, opts, now)| <= |ChosenIds(w, list, m, opts, now)|
  {
    ChosenPrefix(w, list, n, m, opts, now);
  }

  /**
   * Every promotion of a call leaves, under the next minted ID, a clone of its source that still stands
   * at return: it shares its map with no working item, and the map holds the source's metadata plus the
   * back reference.
   */
  lemma ClonesAreSeparate(w: World, list: seq<Item>, opts: ConsolidateOptions, now: Time,
                          mint: nat -> string, backend: Backend, j: nat)
    requires ValidWorld(w) && FromSnapshot(list, w) && Injective(mint)
    requires j < |Promote(w, list, opts, now, mint, backend, []).promoted|
    ensures var o := Promote(w, list, opts, now, mint, backend, []);
            && j < |ChosenAt(w, list, |list|, opts, now)|
            && var p := ChosenAt(w, list, |list|, opts, now)[j];
            && o.promoted[j] == list[p].id && o.promoted[j] in w.working && w.working[o.promoted[j]] == list[p]
            && SeparateClone(o.world, mint(w.minted + 1 + j), list[p], now, ClonedMap(w, list, p, opts, now))
            && (PromotionCount(w.heap, list[p]) >= 0 ==>
                  SeparateClone(o.world, mint(w.minted + 1 + j), list[p], now,
                                WithBackRef(MetaOf(w.heap, list[p].meta), list[p].id)))
  {
    PromotesTheChosen(w, list, opts, now, mint, backend);
    StageStarts(w, list, opts, now);
    var c := ChosenAt(w, list, |list|, opts, now);
    hide Promote, Stage, SeparateClone, Chosen, ClonedMap, WithBackRef, PromotionCount, ValidWorld;
    ChosenAtIsExact(w, list, |list|, opts, now);
    var p := c[j];
    assert p in c;
    ChosenPlace(w, list, j, opts, now);
    assert list[0..] == list;
    CloneFrom(w, w, list, 0, opts, now, mint, backend, [], p);
    if PromotionCount(w.heap, list[p]) >= 0 {
      CountedCloneIsExact(w, list, p, opts, now);
    }
  }

  /** The `j`-th chosen place has `j` chosen places before it. */
  lemma {:induction false} ChosenPlaceIn(w: World, list: seq<Item>, n: nat, j: nat, opts: ConsolidateOptions, now: Time)
    requires n <= |list| && j < |ChosenAt(w, list, n, opts, now)|
    ensures |ChosenAt(w, list, ChosenAt(w, list, n, opts, now)[j], opts, now)| == j
  {
    if j < |ChosenAt(w, list, n - 1, opts, now)| {
      ChosenPlaceIn(w, list, n - 1, j, opts, now);
    }
  }

  lemma ChosenPlace(w: World, list: seq<Item>, j: nat, opts: ConsolidateOptions, now: Time)
    requires j < |ChosenAt(w, list, |list|, opts, now)|
    ensures |ChosenIds(w, list, ChosenAt(w, list, |list|, opts, now)[j], opts, now)| == j
  {
    ChosenPlaceIn(w, list, |list|, j, opts, now);
  }

  /**
   * However a call ends, it made one clone per counted promotion, plus one whose source is not
   * stamped exactly when stamping failed; episodic items outside the minted IDs are untouched.
   */
  lemma {:induction false} FailsTidily(w: World, list: seq<Item>, opts: ConsolidateOptions, now: Time,
                                       mint: nat -> string, backend: Backend, done: seq<string>, id: string)
    ensures var o := Promote(w, list, opts, now, mint, backend, done);
            && |o.promoted| >= |done|
            && o.world.minted == w.minted + (|o.promoted| - |done|) + (if o.failure == StampFailed then 1 else 0)
            && ((forall n :: w.minted < n <= o.world.minted ==> mint(n) != id) ==>
                  (id in o.world.episodic <==> id in w.episodic)
                  && (id in w.episodic ==> o.world.episodic[id] == w.episodic[id]))
    decreases |list|
  {
    if list != [] {
      var it := list[0];
      if !Eligible(w.heap, it, opts, now) {
        FailsTidily(w, list[1..], opts, now, mint, backend, done, id);
      } else if backend.addOk(|done|) {
        var w' := AddClone(w, it, now, mint);
        if it.id in w'.working && backend.stampOk(|done|) {
          FailsTidily(Stamp(w', it.id, now), list[1..], opts, now, mint, backend, done + [it.id], id);
        }
      }
    }
  }

  // ----- Back references -----

  /** Also the references of episodic items point to allocated maps. */
  ghost predicate ValidTiers(w: World)
  {
    && ValidWorld(w)
    && forall id :: id in w.episodic && w.episodic[id].meta.Meta? ==> w.episodic[id].meta.addr in w.heap
  }

  /** The source an episodic item says it was promoted from. */
  function BackRef(w: World, id: string): Option<string>
  {
    if id !in w.episodic then None
    else
      var m := MetaOf(w.heap, w.episodic[id].meta);
      if PROMOTED_FROM in m && m[PROMOTED_FROM].StringValue? then Some(m[PROMOTED_FROM].s) else None
  }

  lemma AddKeepsTiers(w: World, it: Item, now: Time, mint: nat -> string)
    requires ValidTiers(w)
    ensures ValidTiers(AddClone(w, it, now, mint))
  {
    CloneEvolves(w, it, now, mint);
  }

  lemma StampKeepsTiers(w: World, source: string, now: Time)
    requires ValidTiers(w) && source in w.working
    ensures ValidTiers(Stamp(w, source, now))
  {
    StampEvolves(w, source, now);
  }

  lemma PromotionKeepsTiers(w: World, it: Item, now: Time, mint: nat -> string)
    requires ValidTiers(w) && it.id in w.working
    ensures ValidTiers(PromoteOne(w, it, now, mint))
  {
    hide ValidTiers;
    AddKeepsTiers(w, it, now, mint);
    StampKeepsTiers(AddClone(w, it, now, mint), it.id, now);
  }

  lemma {:induction false} CallKeepsTiers(w: World, list: seq<Item>, opts: ConsolidateOptions, now: Time,
                                          mint: nat -> string, backend: Backend, done: seq<string>)
    requires ValidTiers(w)
    ensures ValidTiers(Promote(w, list, opts, now, mint, backend, done).world)
    decreases |list|
  {
    hide *;
    FirstStep(w, list, opts, now, mint, backend, done);
    if list != [] {
      var it := list[0];
      AddKeepsTiers(w, it, now, mint);
      if !Eligible(w.heap, it, opts, now) {
        CallKeepsTiers(w, list[1..], opts, now, mint, backend, done);
      } else if backend.addOk(|done|) && it.id in w.working && backend.stampOk(|done|) {
        PromotionKeepsTiers(w, it, now, mint);
        CallKeepsTiers(PromoteOne(w, it, now, mint), list[1..], opts, now, mint, backend, done + [it.id]);
      }
    }
  }

  /** The clone refers back to its source; no other back reference changes. */
  lemma BackRefAfterAdd(w: World, it: Item, now: Time, mint: nat -> string, id: string)
    requires ValidTiers(w)
    ensures BackRef(AddClone(w, it, now, mint), id) ==
            if id == mint(w.minted + 1) then Some(it.id) else BackRef(w, id)
  {
    assert w.next !in w.heap;
  }

  lemma BackRefAfterStamp(w: World, source: string, now: Time, id: string)
    requires ValidTiers(w) && source in w.working
    ensures BackRef(Stamp(w, source, now), id) == BackRef(w, id)
  {
    assert w.next !in w.heap;
    assert PROMOTED_FROM != PROMOTION_COUNT by { assert |PROMOTED_FROM| != |PROMOTION_COUNT|; }
    assert PROMOTED_FROM != CONSOLIDATED_AT by { assert |PROMOTED_FROM| != |CONSOLIDATED_AT|; }
  }

  /** A back reference at return was there before, or belongs to the clone minted for a counted promotion. */
  lemma {:induction false} BackRefsOfCall(w: World, list: seq<Item>, opts: ConsolidateOptions, now: Time,
                                          mint: nat -> string, backend: Backend, done: seq<string>, id: string)
    requires ValidTiers(w) && Promote(w, list, opts, now, mint, backend, done).failure != StampFailed
    ensures var o := Promote(w, list, opts, now, mint, backend, done);
            && done <= o.promoted
            && (|| BackRef(o.world, id) == BackRef(w, id)
                || exists j :: |done| <= j < |o.promoted| && BackRef(o.world, id) == Some(o.promoted[j])
                               && id == mint(w.minted + 1 + j - |done|))
    decreases |list|
  {
    hide *;
    FirstStep(w, list, opts, now, mint, backend, done);
    if list != [] {
      var it := list[0];
      if !Eligible(w.heap, it, opts, now) {
        BackRefsOfCall(w, list[1..], opts, now, mint, backend, done, id);
      } else if backend.addOk(|done|) {
        var w' := PromoteOne(w, it, now, mint);
        PromotionKeepsTiers(w, it, now, mint);
        BackRefAfterPromotion(w, it, now, mint, id);
        BackRefsOfCall(w', list[1..], opts, now, mint, backend, done + [it.id], id);
        var o := Promote(w, list, opts, now, mint, backend, done);
        assert o.promoted[|done|] == it.id;
      }
    }
  }

  lemma BackRefAfterPromotion(w: World, it: Item, now: Time, mint: nat -> string, id: string)
    requires ValidTiers(w) && it.id in w.working
    ensures PromoteOne(w, it, now, mint).minted == w.minted + 1
    ensures BackRef(PromoteOne(w, it, now, mint), id) ==
            if id == mint(w.minted + 1) then Some(it.id) else BackRef(w, id)
  {
    hide ValidTiers, BackRef;
    AddKeepsTiers(w, it, now, mint);
    BackRefAfterAdd(w, it, now, mint, id);
    BackRefAfterStamp(AddClone(w, it, now, mint), it.id, now, id);
  }
}
