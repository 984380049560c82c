/** Consolidation called again, and called in long runs. */
module ConsolidationRuns {
  import opened Types
  import opened Ordering
  import opened ScoredStore
  import opened Consolidation
  import opened ConsolidationProofs
  import opened ConsolidationExact
  import opened ConsolidationClones

  // ----- After a call -----

  lemma CountsOnlyGrow(w: World, w': World, id: string)
    requires Evolved(w, w') && id in w.working
    ensures PromotionCount(w'.heap, w'.working[id]) >= PromotionCount(w.heap, w.working[id])
  {
    assert OnlyStamped(w, w', id);
  }

  /** Since `w` the item has been stamped at least once. */
  ghost predicate Marked(w: World, w': World, id: string)
  {
    && id in w.working && id in w'.working
    && w'.working[id].importance == Clamp(w.working[id].importance)
    && PromotionCount(w'.heap, w'.working[id]) > PromotionCount(w.heap, w.working[id])
  }

  lemma MarkIsKept(w0: World, w: World, w': World, id: string)
    requires Evolved(w, w') && Marked(w0, w, id)
    ensures Marked(w0, w', id)
  {
    assert OnlyStamped(w, w', id);
  }

  lemma MarkIsMade(w0: World, w: World, it: Item, now: Time, mint: nat -> string)
    requires ValidWorld(w0) && Evolved(w0, w) && it.id in w0.working
    ensures Marked(w0, PromoteOne(w, it, now, mint), it.id)
  {
    PromotionEvolves(w0, w, it, now, mint);
    var w' := PromoteOne(w, it, now, mint);
    assert 0.0 <= w'.working[it.id].importance <= 1.0;
    hide PromoteOne, PromotionCount;
    assert OnlyStamped(w0, w, it.id) && OnlyStamped(w0, w', it.id);
  }

  /** Every source promoted by a call is stamped when the call returns. */
  lemma {:induction false} StampedFrom(w0: World, w: World, list: seq<Item>, opts: ConsolidateOptions, now: Time,
                                       mint: nat -> string, backend: Backend, done: seq<string>, id: string)
    requires ValidWorld(w0) && Evolved(w0, w) && FromSnapshot(list, w0)
    requires id in done ==> Marked(w0, w, id)
    ensures var o := Promote(w, list, opts, now, mint, backend, done);
            id in o.promoted ==> Marked(w0, o.world, id)
    decreases |list|
  {
    hide *;
    FirstStep(w, list, opts, now, mint, backend, done);
    if list != [] {
      var it := list[0];
      SnapshotOf(list, w0);
      if !Eligible(w.heap, it, opts, now) {
        StampedFrom(w0, w, list[1..], opts, now, mint, backend, done, id);
      } else if backend.addOk(|done|) && it.id in w.working {
        PromotionEvolves(w0, w, it, now, mint);
        CloneStep(w, it, now, mint);
        if id in done {
          MarkIsKept(w0, w, PromoteOne(w, it, now, mint), id);
          MarkIsKept(w0, w, AddClone(w, it, now, mint), id);
        }
        MarkIsMade(w0, w, it, now, mint);
        StampedFrom(w0, PromoteOne(w, it, now, mint), list[1..], opts, now, mint, backend, done + [it.id], id);
      } else if backend.addOk(|done|) && id in done {
        CloneStep(w, it, now, mint);
        MarkIsKept(w0, w, AddClone(w, it, now, mint), id);
      }
    }
  }

  lemma SnapshotOf(list: seq<Item>, w: World)
    requires list != [] && FromSnapshot(list, w)
    ensures FromSnapshot(list[1..], w) && list[0].id in w.working && w.working[list[0].id] == list[0]
  {
  }

  lemma CloneStep(w: World, it: Item, now: Time, mint: nat -> string)
    requires exists w0 :: Evolved(w0, w)
    ensures Evolved(w, AddClone(w, it, now, mint))
  {
    hide AddClone;
    CloneEvolves(w, it, now, mint);
  }

  lemma PromotedAreStamped(w: World, list: seq<Item>, opts: ConsolidateOptions, now: Time,
                           mint: nat -> string, backend: Backend, id: string)
    requires ValidWorld(w) && FromSnapshot(list, w)
    requires id in Promote(w, list, opts, now, mint, backend, []).promoted
    ensures Marked(w, Promote(w, list, opts, now, mint, backend, []).world, id)
  {
    hide Promote, Marked;
    EvolvedReflexive(w);
    StampedFrom(w, w, list, opts, now, mint, backend, [], id);
  }

  // ----- A second call -----

  lemma {:induction false} Extends(w: World, list: seq<Item>, opts: ConsolidateOptions, now: Time,
                                   mint: nat -> string, backend: Backend, done: seq<string>)
    ensures done <= Promote(w, list, opts, now, mint, backend, done).promoted
    decreases |list|
  {
    hide *;
    FirstStep(w, list, opts, now, mint, backend, done);
    if list != [] {
      var it := list[0];
      if !Eligible(w.heap, it, opts, now) {
        Extends(w, list[1..], opts, now, mint, backend, done);
      } else if backend.addOk(|done|) && it.id in w.working && backend.stampOk(|done|) {
        Extends(PromoteOne(w, it, now, mint), list[1..], opts, now, mint, backend, done + [it.id]);
      }
    }
  }

  ghost predicate AnyEligible(w: World, list: seq<Item>, opts: ConsolidateOptions, now: Time)
  {
    exists i :: 0 <= i < |list| && Eligible(w.heap, list[i], opts, now)
  }

  /** A call does nothing exactly when nothing it lists is eligible. */
  lemma {:induction false} IdleIff(w: World, list: seq<Item>, opts: ConsolidateOptions, now: Time,
                                   mint: nat -> string, backend: Backend)
    ensures Promote(w, list, opts, now, mint, backend, []) == Outcome(w, [], Nothing) <==>
            !AnyEligible(w, list, opts, now)
  {
    hide Promote, Eligible, AddClone, Stamp, PromoteOne;
    FirstStep(w, list, opts, now, mint, backend, []);
    if list != [] {
      var it := list[0];
      if !Eligible(w.heap, it, opts, now) {
        IdleIff(w, list[1..], opts, now, mint, backend);
        EligibleInRest(w, list, opts, now);
      } else if it.id in w.working {
        Extends(PromoteOne(w, it, now, mint), list[1..], opts, now, mint, backend, [] + [it.id]);
      }
    }
  }

  lemma EligibleInRest(w: World, list: seq<Item>, opts: ConsolidateOptions, now: Time)
    requires list != [] && !Eligible(w.heap, list[0], opts, now)
    ensures AnyEligible(w, list, opts, now) <==> AnyEligible(w, list[1..], opts, now)
  {
    hide Eligible;
    if i :| 0 <= i < |list[1..]| && Eligible(w.heap, list[1..][i], opts, now) {
      assert list[i + 1] == list[1..][i];
    }
    if i :| 0 <= i < |list| && Eligible(w.heap, list[i], opts, now) {
      assert list[i] == list[1..][i - 1];
    }
  }

  function Clamped(it: Item): Item
  {
    it.(importance := Clamp(it.importance))
  }

  lemma ClampedRipe(it: Item, it': Item, opts: ConsolidateOptions, now: Time)
    requires it'.createdAt == it.createdAt
    requires it'.importance == it.importance || it'.importance == Clamp(it.importance)
    requires Ripe(it', opts, now)
    ensures Ripe(it, opts, now)
  {
  }

  /**
   * Entry `i` stays below a count of one even after all ripe entries on its map have been promoted:
   * this takes a negative count.
   */
  ghost predicate StaysUncounted(w: World, list: seq<Item>, i: nat, opts: ConsolidateOptions, now: Time)
    requires i < |list|
  {
    && list[i].meta.Meta? && Ripe(Clamped(list[i]), opts, now)
    && PromotionCount(w.heap, list[i]) + RipeBefore(list, |list|, list[i].meta, opts, now) < 1
  }

  lemma {:induction false} RipeBeforeMonotone(list: seq<Item>, i: nat, j: nat, ref: MetaRef,
                                              opts: ConsolidateOptions, now: Time)
    requires i <= j <= |list|
    ensures RipeBefore(list, i, ref, opts, now) <= RipeBefore(list, j, ref, opts, now)
  {
    if i < j {
      RipeBeforeMonotone(list, i, j - 1, ref, opts, now);
    }
  }

  /** A successful call: its outcome `w'` holds the stamps of all chosen entries. */
  ghost predicate Succeeded(w: World, w': World, list: seq<Item>, opts: ConsolidateOptions, now: Time)
  {
    && Stage(w, w', list, |list|, opts, now)
    && forall i :: 0 <= i < |list| && Chosen(w, list, i, opts, now) ==> Marked(w, w', list[i].id)
  }

  lemma SuccessMarks(w: World, list: seq<Item>, opts: ConsolidateOptions, now: Time,
                     mint: nat -> string, backend: Backend)
    requires ValidWorld(w) && FromSnapshot(list, w)
    requires Promote(w, list, opts, now, mint, backend, []).failure == Nothing
    ensures Succeeded(w, Promote(w, list, opts, now, mint, backend, []).world, list, opts, now)
  {
    PromotesTheChosen(w, list, opts, now, mint, backend);
    hide Promote, Chosen, Stage, Marked, ChosenAt, FromSnapshot, ValidWorld;
    ChosenAtIsExact(w, list, |list|, opts, now);
    var c, o := ChosenAt(w, list, |list|, opts, now), Promote(w, list, opts, now, mint, backend, []);
    assert o.promoted == IdsAt(list, c);
    forall i | 0 <= i < |list| && Chosen(w, list, i, opts, now)
      ensures Marked(w, o.world, list[i].id)
    {
      assert i in c;
      var k :| 0 <= k < |c| && c[k] == i;
      assert o.promoted[k] == list[i].id;
      PromotedAreStamped(w, list, opts, now, mint, backend, list[i].id);
    }
  }

  /** Whether a listed item is eligible again after a successful call. */
  lemma EligibleAgainIff(w: World, w': World, list: seq<Item>, opts: ConsolidateOptions, now: Time, i: nat)
    requires FromSnapshot(list, w) && Succeeded(w, w', list, opts, now) && i < |list|
    ensures list[i].id in w'.working
    ensures Eligible(w'.heap, w'.working[list[i].id], opts, now) <==> StaysUncounted(w, list, i, opts, now)
  {
    var it := list[i];
    assert Evolved(w, w');
    assert OnlyStamped(w, w', it.id);
    var it' := w'.working[it.id];
    hide Evolved, Stage, OnlyStamped;
    if Ripe(it', opts, now) {
      ClampedRipe(it, it', opts, now);
    }
    if Ripe(Clamped(it), opts, now) {
      ClampedRipe(it, Clamped(it), opts, now);
    }
    if it.meta.Meta? {
      CountAfter(w, w', list, |list|, opts, now, it.id);
      CountByMeta(w'.heap, it, it');
      RipeBeforeMonotone(list, i, |list|, it.meta, opts, now);
      hide Ripe, PromotionCount, RipeBefore;
      SameRipeness(it', Clamped(it), opts, now);
    } else {
      assert PromotionCount(w.heap, it) == 0;
    }
  }

  lemma SameRipeness(a: Item, b: Item, opts: ConsolidateOptions, now: Time)
    ensures a.createdAt == b.createdAt && a.importance == b.importance ==>
              (Ripe(a, opts, now) <==> Ripe(b, opts, now))
  {
  }

  ghost predicate Lists(list: seq<Item>, id: string)
  {
    exists j :: 0 <= j < |list| && list[j].id == id
  }

  /** Every item of `list'` is listed in `list`. */
  ghost predicate Within(list': seq<Item>, list: seq<Item>)
  {
    forall i :: 0 <= i < |list'| ==> Lists(list, list'[i].id)
  }

  ghost predicate AnyStaysUncounted(w: World, list: seq<Item>, opts: ConsolidateOptions, now: Time)
  {
    exists i :: 0 <= i < |list| && StaysUncounted(w, list, i, opts, now)
  }

  lemma EligibleAgain(w: World, w': World, list: seq<Item>, list': seq<Item>, opts: ConsolidateOptions, now: Time)
    requires FromSnapshot(list, w) && Succeeded(w, w', list, opts, now) && FromSnapshot(list', w')
    ensures Within(list', list) && AnyEligible(w', list', opts, now) ==> AnyStaysUncounted(w, list, opts, now)
    ensures Within(list, list') && AnyStaysUncounted(w, list, opts, now) ==> AnyEligible(w', list', opts, now)
  {
    hide *;
    if Within(list', list) && AnyEligible(w', list', opts, now) {
      var i := EligibleEntry(w', list', opts, now);
      var j := PlaceWithin(list', list, i);
      EligibleAgainIff(w, w', list, opts, now, j);
      ListedAs(list', w', i);
      UncountedEntry(w, list, opts, now, j);
    }
    if Within(list, list') && AnyStaysUncounted(w, list, opts, now) {
      var j := EntryUncounted(w, list, opts, now);
      var i := PlaceWithin(list, list', j);
      EligibleAgainIff(w, w', list, opts, now, j);
      ListedAs(list', w', i);
      EntryEligible(w', list', opts, now, i);
    }
  }

  lemma ListedAs(list: seq<Item>, w: World, i: nat)
    requires FromSnapshot(list, w) && i < |list|
    ensures list[i].id in w.working && w.working[list[i].id] == list[i]
  {
  }

  lemma PlaceWithin(list': seq<Item>, list: seq<Item>, i: nat) returns (j: nat)
    requires Within(list', list) && i < |list'|
    ensures j < |list| && list[j].id == list'[i].id
  {
    assert Lists(list, list'[i].id);
    j :| 0 <= j < |list| && list[j].id == list'[i].id;
  }

  lemma EligibleEntry(w: World, list: seq<Item>, opts: ConsolidateOptions, now: Time) returns (i: nat)
    requires AnyEligible(w, list, opts, now)
    ensures i < |list| && Eligible(w.heap, list[i], opts, now)
  {
    hide Eligible;
    i :| 0 <= i < |list| && Eligible(w.heap, list[i], opts, now);
  }

  lemma EntryEligible(w: World, list: seq<Item>, opts: ConsolidateOptions, now: Time, i: nat)
    requires i < |list| && Eligible(w.heap, list[i], opts, now)
    ensures AnyEligible(w, list, opts, now)
  {
    hide Eligible;
  }

  lemma EntryUncounted(w: World, list: seq<Item>, opts: ConsolidateOptions, now: Time) returns (i: nat)
    requires AnyStaysUncounted(w, list, opts, now)
    ensures i < |list| && StaysUncounted(w, list, i, opts, now)
  {
    hide StaysUncounted;
    i :| 0 <= i < |list| && StaysUncounted(w, list, i, opts, now);
  }

  lemma UncountedEntry(w: World, list: seq<Item>, opts: ConsolidateOptions, now: Time, i: nat)
    requires i < |list| && StaysUncounted(w, list, i, opts, now)
    ensures AnyStaysUncounted(w, list, opts, now)
  {
    hide StaysUncounted;
  }

  /**
   * After a successful call, a second one with the same options and clock over the same items, listed
   * in any order and any number of times, promotes and changes nothing if and only if no listed count
   * was so negative that all of the first call's stamps could not make up for it.
   */
  lemma SecondCallIdleIff(w: World, list: seq<Item>, list': seq<Item>, opts: ConsolidateOptions, now: Time,
                          mint: nat -> string, mint': nat -> string, backend: Backend, backend': Backend)
    requires ValidWorld(w) && FromSnapshot(list, w)
    requires Promote(w, list, opts, now, mint, backend, []).failure == Nothing
    requires FromSnapshot(list', Promote(w, list, opts, now, mint, backend, []).world)
    requires Within(list', list) && Within(list, list')
    ensures var w' := Promote(w, list, opts, now, mint, backend, []).world;
            Promote(w', list', opts, now, mint', backend', []) == Outcome(w', [], Nothing) <==>
            !AnyStaysUncounted(w, list, opts, now)
  {
    hide *;
    var w' := Promote(w, list, opts, now, mint, backend, []).world;
    SuccessMarks(w, list, opts, now, mint, backend);
    EligibleAgain(w, w', list, list', opts, now);
    IdleIff(w', list', opts, now, mint', backend');
  }

  /** When no count is negative the second call is idle, whatever part of the items it lists. */
  lemma SecondCallIsIdle(w: World, list: seq<Item>, list': seq<Item>, opts: ConsolidateOptions, now: Time,
                         mint: nat -> string, mint': nat -> string, backend: Backend, backend': Backend)
    requires ValidWorld(w) && NonNegativeCounts(w) && FromSnapshot(list, w)
    requires Promote(w, list, opts, now, mint, backend, []).failure == Nothing
    requires FromSnapshot(list', Promote(w, list, opts, now, mint, backend, []).world) && Within(list', list)
    ensures var w' := Promote(w, list, opts, now, mint, backend, []).world;
            Promote(w', list', opts, now, mint', backend', []) == Outcome(w', [], Nothing)
  {
    hide *;
    var w' := Promote(w, list, opts, now, mint, backend, []).world;
    SuccessMarks(w, list, opts, now, mint, backend);
    EligibleAgain(w, w', list, list', opts, now);
    IdleIff(w', list', opts, now, mint', backend');
    AllCounted(w, list, opts, now);
  }

  lemma AllCounted(w: World, list: seq<Item>, opts: ConsolidateOptions, now: Time)
    requires NonNegativeCounts(w) && FromSnapshot(list, w)
    ensures !AnyStaysUncounted(w, list, opts, now)
  {
    forall i | 0 <= i < |list|
      ensures !StaysUncounted(w, list, i, opts, now)
    {
      if Ripe(Clamped(list[i]), opts, now) {
        ClampedRipe(list[i], Clamped(list[i]), opts, now);
        RipeBeforeGrows(list, i, |list|, opts, now);
      }
    }
  }

  // ----- Whole runs -----

  /** The tiers, every working ID ever used, and the source of every clone made, in order. */
  datatype History = History(world: World, used: set<string>, log: seq<string>)

  /** No surviving working item changes its promotion count. */
  ghost predicate KeepsCounts(w: World, w': World)
  {
    forall id :: id in w.working && id in w'.working ==>
      PromotionCount(w'.heap, w'.working[id]) == PromotionCount(w.heap, w.working[id])
  }

  /** No episodic item gains or changes a back reference; items may come, go and change otherwise. */
  ghost predicate KeepsBackRefs(w: World, w': World)
  {
    forall id :: BackRef(w', id).Some? ==> BackRef(w', id) == BackRef(w, id)
  }

  /** An addition to any tier; a working item comes with a fresh ID and no negative count. */
  ghost predicate Adds(s: History, s': History)
  {
    && s'.log == s.log && KeepsCounts(s.world, s'.world) && KeepsBackRefs(s.world, s'.world) && ValidTiers(s'.world)
    && exists id :: id !in s.used && s'.used == s.used + {id}
                    && s'.world.working.Keys <= s.world.working.Keys + {id}
                    && (id in s'.world.working ==> PromotionCount(s'.world.heap, s'.world.working[id]) >= 0)
  }

  /** Gets, and updates whose callbacks keep the ID, every promotion count and every back reference. */
  ghost predicate Updates(s: History, s': History)
  {
    && s'.log == s.log && s'.used == s.used
    && KeepsCounts(s.world, s'.world) && KeepsBackRefs(s.world, s'.world) && ValidTiers(s'.world)
    && s'.world.working.Keys == s.world.working.Keys
  }

  ghost predicate Removes(s: History, s': History)
  {
    exists id :: || s' == s.(world := s.world.(working := s.world.working - {id}))
                 || s' == s.(world := s.world.(episodic := s.world.episodic - {id}))
  }

  /** A call that chooses nothing twice, and whose stamps all succeed. */
  ghost predicate Consolidates(s: History, s': History)
  {
    exists list, opts, now, mint: nat -> string, backend ::
      && FromSnapshot(list, s.world) && !ChoosesTwice(s.world, list, opts, now)
      && var o := Promote(s.world, list, opts, now, mint, backend, []);
      && o.failure != StampFailed
      && s' == History(o.world, s.used, s.log + o.promoted)
  }

  ghost predicate Step(s: History, s': History)
  {
    Adds(s, s') || Updates(s, s') || Removes(s, s') || Consolidates(s, s')
  }

  /** Every promoted working item that is still there shows it. */
  ghost predicate LogInv(s: History)
  {
    && ValidTiers(s.world) && NonNegativeCounts(s.world)
    && s.world.working.Keys <= s.used
    && (forall id :: id in s.log ==> id in s.used)
    && Distinct(s.log)
    && forall id :: id in s.log && id in s.world.working ==> PromotionCount(s.world.heap, s.world.working[id]) >= 1
  }

  /** Back references name promoted sources, each source at most once. */
  ghost predicate OneCloneEach(s: History)
  {
    && (forall id :: BackRef(s.world, id).Some? ==> BackRef(s.world, id).value in s.log)
    && forall id, id' :: BackRef(s.world, id).Some? && BackRef(s.world, id') == BackRef(s.world, id) ==> id == id'
  }

  ghost predicate Inv(s: History)
  {
    LogInv(s) && OneCloneEach(s)
  }

  lemma StepKeepsInv(s: History, s': History)
    requires Inv(s) && Step(s, s')
    ensures Inv(s')
  {
    if Consolidates(s, s') {
      var list, opts, now, mint: nat -> string, backend :|
        && FromSnapshot(list, s.world) && !ChoosesTwice(s.world, list, opts, now)
        && var o := Promote(s.world, list, opts, now, mint, backend, []);
        && o.failure != StampFailed
        && s' == History(o.world, s.used, s.log + o.promoted);
      hide *;
      CallKeepsInv(s, list, opts, now, mint, backend);
    } else {
      hide PromotionCount, BackRef;
      OtherStepKeepsInv(s, s');
    }
  }

  lemma OtherStepKeepsInv(s: History, s': History)
    requires Inv(s) && (Adds(s, s') || Updates(s, s') || Removes(s, s'))
    ensures Inv(s')
  {
    if Removes(s, s') {
      assert KeepsBackRefs(s.world, s'.world) && KeepsCounts(s.world, s'.world);
    }
    hide PromotionCount, BackRef;
    assert OneCloneEach(s') by {
      BackRefsKept(s, s');
    }
  }

  lemma BackRefsKept(s: History, s': History)
    requires OneCloneEach(s) && KeepsBackRefs(s.world, s'.world) && s'.log == s.log
    ensures OneCloneEach(s')
  {
    hide BackRef;
  }

  lemma CallKeepsInv(s: History, list: seq<Item>, opts: ConsolidateOptions, now: Time,
                     mint: nat -> string, backend: Backend)
    requires Inv(s) && FromSnapshot(list, s.world) && !ChoosesTwice(s.world, list, opts, now)
    requires Promote(s.world, list, opts, now, mint, backend, []).failure != StampFailed
    ensures var o := Promote(s.world, list, opts, now, mint, backend, []);
            Inv(History(o.world, s.used, s.log + o.promoted))
  {
    var o := Promote(s.world, list, opts, now, mint, backend, []);
    assert ValidTiers(s.world);
    hide *;
    OncePerCall(s.world, list, opts, now, mint, backend);
    CallOnlyStamps(s.world, list, opts, now, mint, backend, []);
    CallKeepsTiers(s.world, list, opts, now, mint, backend, []);
    forall id
      ensures id in o.promoted ==> Logged(s, o, id)
    {
      if id in o.promoted {
        CallLogs(s, list, opts, now, mint, backend, id);
      }
    }
    LogExtends(s, o);
    ClonesExtend(s, list, opts, now, mint, backend);
  }

  /** What a call's log says about one promoted ID. */
  ghost predicate Logged(s: History, o: Outcome, id: string)
  {
    && id !in s.log && id in s.used
    && id in o.world.working && PromotionCount(o.world.heap, o.world.working[id]) >= 1
  }

  lemma CallLogs(s: History, list: seq<Item>, opts: ConsolidateOptions, now: Time,
                 mint: nat -> string, backend: Backend, id: string)
    requires LogInv(s) && FromSnapshot(list, s.world)
    requires id in Promote(s.world, list, opts, now, mint, backend, []).promoted
    ensures Logged(s, Promote(s.world, list, opts, now, mint, backend, []), id)
  {
    hide Promote;
    var p := PromotedWasChosen(s.world, list, opts, now, mint, backend, id);
    assert list[p].id in s.world.working && PromotionCount(s.world.heap, list[p]) < 1 by {
      if list[p].meta.NilMeta? {
        assert PromotionCount(s.world.heap, list[p]) == 0;
      }
    }
    hide PromotionCount, Chosen;
    PromotedAreStamped(s.world, list, opts, now, mint, backend, id);
  }

  lemma LogExtends(s: History, o: Outcome)
    requires LogInv(s) && Evolved(s.world, o.world) && ValidTiers(o.world) && Distinct(o.promoted)
    requires forall id :: id in o.promoted ==> Logged(s, o, id)
    ensures LogInv(History(o.world, s.used, s.log + o.promoted))
  {
    var w := s.world;
    forall id | id in w.working
      ensures PromotionCount(o.world.heap, o.world.working[id]) >= PromotionCount(w.heap, w.working[id])
    {
      CountsOnlyGrow(w, o.world, id);
    }
    hide OnlyStamped, PromotionCount, ValidTiers;
    DistinctConcat(s.log, o.promoted);
  }

  lemma DistinctConcat<T>(a: seq<T>, b: seq<T>)
    requires Distinct(a) && Distinct(b) && forall x :: x in b ==> x !in a
    ensures Distinct(a + b)
  {
    forall i, j | 0 <= i < j < |a + b|
      ensures (a + b)[i] != (a + b)[j]
    {
      if |a| <= j {
        assert (a + b)[j] in b;
      }
    }
  }

  lemma ClonesExtend(s: History, list: seq<Item>, opts: ConsolidateOptions, now: Time,
                     mint: nat -> string, backend: Backend)
    requires OneCloneEach(s) && ValidTiers(s.world)
    requires var o := Promote(s.world, list, opts, now, mint, backend, []);
             && o.failure != StampFailed && Distinct(o.promoted)
             && forall id :: id in o.promoted ==> Logged(s, o, id)
    ensures var o := Promote(s.world, list, opts, now, mint, backend, []);
            OneCloneEach(History(o.world, s.used, s.log + o.promoted))
  {
    var o := Promote(s.world, list, opts, now, mint, backend, []);
    hide Promote, BackRef, ValidTiers;
    forall id | BackRef(o.world, id).Some?
      ensures FromHistory(s, o, mint, id)
    {
      BackRefsOfCall(s.world, list, opts, now, mint, backend, [], id);
    }
    NewClonesAreOneEach(s, o, mint);
  }

  /** A back reference is from before the call, or that of the clone minted for one of its promotions. */
  ghost predicate FromHistory(s: History, o: Outcome, mint: nat -> string, id: string)
  {
    || BackRef(s.world, id) == BackRef(o.world, id)
    || exists j :: 0 <= j < |o.promoted| && BackRef(o.world, id) == Some(o.promoted[j])
                   && id == mint(s.world.minted + 1 + j)
  }

  lemma NewClonesAreOneEach(s: History, o: Outcome, mint: nat -> string)
    requires OneCloneEach(s) && Distinct(o.promoted)
    requires forall id :: id in o.promoted ==> Logged(s, o, id)
    requires forall id :: BackRef(o.world, id).Some? ==> FromHistory(s, o, mint, id)
    ensures OneCloneEach(History(o.world, s.used, s.log + o.promoted))
  {
    hide BackRef;
    forall id, id' | BackRef(o.world, id).Some? && BackRef(o.world, id') == BackRef(o.world, id)
      ensures id == id'
    {
      assert FromHistory(s, o, mint, id) && FromHistory(s, o, mint, id');
      var src := BackRef(o.world, id).value;
      if src in o.promoted {
        assert Logged(s, o, src);
        var j :| 0 <= j < |o.promoted| && src == o.promoted[j] && id == mint(s.world.minted + 1 + j);
        var j' :| 0 <= j' < |o.promoted| && src == o.promoted[j'] && id' == mint(s.world.minted + 1 + j');
        assert j == j';
      }
    }
  }

  ghost predicate Run(states: seq<History>)
  {
    && states != [] && Inv(states[0])
    && forall i :: 0 <= i < |states| - 1 ==> Step(states[i], states[i + 1])
  }

  lemma {:induction false} RunKeepsInv(states: seq<History>)
    requires Run(states)
    ensures Inv(states[|states| - 1])
  {
    if |states| > 1 {
      var init := states[..|states| - 1];
      hide Inv, Step;
      RunKeepsInv(init);
      assert Step(init[|init| - 1], states[|states| - 1]);
      StepKeepsInv(init[|init| - 1], states[|states| - 1]);
    }
  }

  /**
   * In every state of a run no source is promoted twice, every back reference names a promoted source,
   * and any two episodic items with the same back reference are the same item.
   */
  lemma PromotedOnceInEveryRun(states: seq<History>, i: nat, id: string, id': string)
    requires Run(states) && i < |states|
    ensures Distinct(states[i].log)
    ensures var w := states[i].world;
            BackRef(w, id).Some? ==>
              BackRef(w, id).value in states[i].log && (BackRef(w, id') == BackRef(w, id) ==> id' == id)
  {
    hide BackRef, Step;
    assert Run(states[..i + 1]);
    RunKeepsInv(states[..i + 1]);
  }

  /** A new engine: nothing stored, nothing promoted. */
  lemma EmptyHistory()
    ensures Inv(History(World(map[], 0, map[], map[], 0), {}, []))
  {
  }
}
