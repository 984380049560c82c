/** What a failed stamp leads to: the clone is there, its source does not show it, and the next call clones again. */
module ConsolidationFailures {
  import opened Types
  import opened Consolidation
  import opened ConsolidationProofs
  import opened ConsolidationExact
  import opened ConsolidationClones
  import opened ConsolidationRuns

  /** Working items that were not promoted are stored as before. */
  ghost predicate KeepsUnpromoted(w0: World, w: World, done: seq<string>)
  {
    forall id :: id in w0.working && id !in done ==> id in w.working && w.working[id] == w0.working[id]
  }

  lemma PromotionKeepsUnpromoted(w0: World, w: World, it: Item, now: Time, mint: nat -> string, done: seq<string>)
    requires KeepsUnpromoted(w0, w, done) && it.id in w.working
    ensures KeepsUnpromoted(w0, PromoteOne(w, it, now, mint), done + [it.id])
  {
    assert PromoteOne(w, it, now, mint).working.Keys == w.working.Keys;
    assert forall id :: id in w.working && id != it.id ==> PromoteOne(w, it, now, mint).working[id] == w.working[id];
    hide PromoteOne;
  }

  /** The entry whose stamp a call failed on. */
  ghost function FailedOn(w: World, list: seq<Item>, opts: ConsolidateOptions, now: Time, o: Outcome): Item
    requires |o.promoted| < |ChosenAt(w, list, |list|, opts, now)|
  {
    list[ChosenAt(w, list, |list|, opts, now)[|o.promoted|]]
  }

  /** How a call that failed on a stamp ended: with a clone of an entry that was eligible in the world before it. */
  ghost predicate EndsInClone(w0: World, v: World, list: seq<Item>, opts: ConsolidateOptions, now: Time,
                              mint: nat -> string, o: Outcome)
  {
    && |o.promoted| < |ChosenAt(w0, list, |list|, opts, now)|
    && var it := FailedOn(w0, list, opts, now, o);
    && o.world == AddClone(v, it, now, mint)
    && ValidTiers(v) && KeepsUnpromoted(w0, v, o.promoted) && it.id in v.working
    && Eligible(v.heap, it, opts, now)
  }

  lemma {:induction false} FailsAt(w0: World, w: World, list: seq<Item>, n: nat, opts: ConsolidateOptions, now: Time,
                                   mint: nat -> string, backend: Backend, done: seq<string>) returns (v: World)
    requires ValidWorld(w0) && FromSnapshot(list, w0) && n <= |list| && Stage(w0, w, list, n, opts, now)
    requires done == ChosenIds(w0, list, n, opts, now) && ValidTiers(w) && KeepsUnpromoted(w0, w, done)
    requires Promote(w, list[n..], opts, now, mint, backend, done).failure == StampFailed
    ensures EndsInClone(w0, v, list, opts, now, mint, Promote(w, list[n..], opts, now, mint, backend, done))
    decreases |list| - n
  {
    hide *;
    v := w;
    if n == |list| {
      assert list[n..] == [];
      FirstStep(w, list[n..], opts, now, mint, backend, done);
      return;
    }
    NextEntry(w0, w, list, n, opts, now, mint, backend, done);
    if !Chosen(w0, list, n, opts, now) {
      SkippedKeepsStage(w0, w, list, n, opts, now);
      v := FailsAt(w0, w, list, n + 1, opts, now, mint, backend, done);
    } else if backend.addOk(|done|) && backend.stampOk(|done|) {
      PromotedKeepsStage(w0, w, list, n, opts, now, mint);
      PromotionKeepsTiers(w, list[n], now, mint);
      PromotionKeepsUnpromoted(w0, w, list[n], now, mint, done);
      v := FailsAt(w0, PromoteOne(w, list[n], now, mint), list, n + 1, opts, now, mint, backend, done + [list[n].id]);
    } else {
      EligibleIffChosen(w0, w, list, n, opts, now);
      FailsHere(w0, w, list, n, opts, now, mint, done, Promote(w, list[n..], opts, now, mint, backend, done));
    }
  }

  lemma FailsHere(w0: World, w: World, list: seq<Item>, n: nat, opts: ConsolidateOptions, now: Time,
                  mint: nat -> string, done: seq<string>, o: Outcome)
    requires n < |list| && Chosen(w0, list, n, opts, now) && done == ChosenIds(w0, list, n, opts, now)
    requires ValidTiers(w) && KeepsUnpromoted(w0, w, done) && list[n].id in w.working
    requires Eligible(w.heap, list[n], opts, now)
    requires o == Outcome(AddClone(w, list[n], now, mint), done, StampFailed)
    ensures EndsInClone(w0, w, list, opts, now, mint, o)
  {
    ChosenPrefix(w0, list, n + 1, |list|, opts, now);
    assert ChosenAt(w0, list, n + 1, opts, now)[|done|] == n;
    hide Chosen, Eligible, ValidTiers, KeepsUnpromoted, AddClone, ChosenAt;
  }

  lemma FailedCall(w: World, list: seq<Item>, opts: ConsolidateOptions, now: Time,
                   mint: nat -> string, backend: Backend) returns (v: World)
    requires ValidTiers(w) && FromSnapshot(list, w)
    requires Promote(w, list, opts, now, mint, backend, []).failure == StampFailed
    ensures EndsInClone(w, v, list, opts, now, mint, Promote(w, list, opts, now, mint, backend, []))
  {
    StageStarts(w, list, opts, now);
    assert list[0..] == list;
    assert ChosenIds(w, list, 0, opts, now) == [];
    hide Promote, Stage, ChosenIds, EndsInClone;
    v := FailsAt(w, w, list, 0, opts, now, mint, backend, []);
  }

  lemma StillEligible(v: World, it: Item, opts: ConsolidateOptions, now: Time, mint: nat -> string)
    requires ValidTiers(v) && it.id in v.working && v.working[it.id] == it && Eligible(v.heap, it, opts, now)
    ensures Eligible(AddClone(v, it, now, mint).heap, it, opts, now)
  {
    CloneKeepsCount(v, it, now, mint, it.id);
    hide AddClone, PromotionCount;
  }

  lemma {:induction false} ListedOften(list: seq<Item>, n: nat, id: string)
    requires n <= |list|
    ensures Listed(list, n, id) > 0 <==> Lists(list[..n], id)
  {
    if n > 0 {
      var init := list[..n - 1];
      ListedOften(list, n - 1, id);
      assert list[..n] == init + [list[n - 1]];
      if j :| 0 <= j < |init| && init[j].id == id {
        assert list[..n][j].id == id;
      }
      if j :| 0 <= j < n && list[..n][j].id == id {
        assert j < n - 1 ==> init[j].id == id;
      }
      assert list[n - 1].id == id ==> list[..n][n - 1].id == id;
    }
  }

  /** An eligible item that shares its map with no other is promoted by a call that lists it. */
  lemma EligibleIsPromoted(w: World, list: seq<Item>, opts: ConsolidateOptions, now: Time,
                           mint: nat -> string, backend: Backend, it: Item)
    requires ValidWorld(w) && FromSnapshot(list, w) && AllOk(backend) && Lists(list, it.id)
    requires it.id in w.working && w.working[it.id] == it && (it.meta.NilMeta? || OwnMap(w, it))
    requires Eligible(w.heap, it, opts, now)
    ensures it.id in Promote(w, list, opts, now, mint, backend, []).promoted
  {
    hide Promote, OwnMap, ValidWorld, FromSnapshot, Lists;
    PromotedTimes(w, list, opts, now, mint, backend, it);
    assert list[..|list|] == list;
    ListedOften(list, |list|, it.id);
  }

  lemma CloneRefersBack(w: World, id: string, src: Item, now: Time, m: Metadata, source: string)
    requires SeparateClone(w, id, src, now, WithBackRef(m, source))
    ensures BackRef(w, id) == Some(source)
  {
  }

  /** A promoted source has a clone that refers back to it, minted by this call. */
  lemma PromotedHasClone(w: World, list: seq<Item>, opts: ConsolidateOptions, now: Time,
                         mint: nat -> string, backend: Backend, source: string) returns (j: nat)
    requires ValidWorld(w) && FromSnapshot(list, w) && Injective(mint)
    requires source in Promote(w, list, opts, now, mint, backend, []).promoted
    ensures BackRef(Promote(w, list, opts, now, mint, backend, []).world, mint(w.minted + 1 + j)) == Some(source)
  {
    var o := Promote(w, list, opts, now, mint, backend, []);
    j :| 0 <= j < |o.promoted| && o.promoted[j] == source;
    ClonesAreSeparate(w, list, opts, now, mint, backend, j);
    var p := ChosenAt(w, list, |list|, opts, now)[j];
    hide Promote, SeparateClone, BackRef, WithBackRef;
    CloneRefersBack(o.world, mint(w.minted + 1 + j), list[p], now, MapAfter(w, list, p, list[p], opts, now), source);
  }

  /** A back reference outlives a call that mints other IDs. */
  lemma BackRefSurvives(w: World, list: seq<Item>, opts: ConsolidateOptions, now: Time,
                        mint: nat -> string, backend: Backend, n: nat)
    requires ValidTiers(w) && Injective(mint) && n <= w.minted
    requires Promote(w, list, opts, now, mint, backend, []).failure != StampFailed
    ensures BackRef(Promote(w, list, opts, now, mint, backend, []).world, mint(n)) == BackRef(w, mint(n))
  {
    hide Promote, BackRef, ValidTiers;
    BackRefsOfCall(w, list, opts, now, mint, backend, [], mint(n));
  }

  /**
   * After a call that failed to stamp a source, a call with the same options and clock that lists the
   * source clones it again: two episodic items then carry its back reference. The source must not have
   * been promoted earlier in the same call, nor share its map, for then the map may remember.
   */
  lemma RetryClonesAgain(w: World, list: seq<Item>, list': seq<Item>, opts: ConsolidateOptions, now: Time,
                         mint: nat -> string, backend: Backend, backend': Backend) returns (id: string, id': string)
    requires ValidTiers(w) && FromSnapshot(list, w) && Injective(mint) && AllOk(backend')
    requires Promote(w, list, opts, now, mint, backend, []).failure == StampFailed
    requires var o := Promote(w, list, opts, now, mint, backend, []);
             && |o.promoted| < |ChosenAt(w, list, |list|, opts, now)|
             && var source := FailedOn(w, list, opts, now, o);
             && source.id !in o.promoted && (source.meta.NilMeta? || OwnMap(o.world, source))
             && FromSnapshot(list', o.world) && Lists(list', source.id)
    ensures var o := Promote(w, list, opts, now, mint, backend, []);
            var o' := Promote(o.world, list', opts, now, mint, backend', []);
            var source := FailedOn(w, list, opts, now, o);
            && id != id'
            && BackRef(o'.world, id) == BackRef(o'.world, id') == Some(source.id)
  {
    var o := Promote(w, list, opts, now, mint, backend, []);
    var v := FailedCall(w, list, opts, now, mint, backend);
    var source := FailedOn(w, list, opts, now, o);
    assert w.working[source.id] == source && o.world.working[source.id] == source;
    assert o.world.minted == v.minted + 1;
    hide *;
    AddKeepsTiers(v, source, now, mint);
    TiersAreValid(o.world);
    BackRefAfterAdd(v, source, now, mint, mint(o.world.minted));
    StillEligible(v, source, opts, now, mint);
    EligibleIsPromoted(o.world, list', opts, now, mint, backend', source);
    AllChosenPromoted(o.world, list', opts, now, mint, backend');
    BackRefSurvives(o.world, list', opts, now, mint, backend', o.world.minted);
    var j := PromotedHasClone(o.world, list', opts, now, mint, backend', source.id);
    id, id' := mint(o.world.minted), mint(o.world.minted + 1 + j);
    Minted(mint, o.world.minted, o.world.minted + 1 + j);
  }

  lemma TiersAreValid(w: World)
    requires ValidTiers(w)
    ensures ValidWorld(w)
  {
  }

  lemma Minted(mint: nat -> string, m: nat, n: nat)
    requires Injective(mint) && m != n
    ensures mint(m) != mint(n)
  {
  }
}
