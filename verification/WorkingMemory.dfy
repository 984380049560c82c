/** The working tier: a store with a capacity (memory/engine_working.go). */
module WorkingMemory {
  import opened Types
  import opened Ordering
  import opened ScoredStore

  /** The score of an item and its vector for the probe's vector; a missing vector counts as empty. */
  type Scorer = (Vector, Item, Vector) -> real

  function VectorOf(vectors: map<string, Vector>, id: string): Vector
  {
    if id in vectors then vectors[id] else []
  }

  function ScoreOf(items: Items, vectors: map<string, Vector>, score: Scorer, qv: Vector, id: string): real
    requires id in items
  {
    score(qv, items[id], VectorOf(vectors, id))
  }

  datatype Scored = Scored(id: string, score: real)

  predicate Lower(a: Scored, b: Scored)
  {
    a.score < b.score
  }

  /** `id` scores lowest for the probe. */
  ghost predicate Lowest(items: Items, vectors: map<string, Vector>, score: Scorer, qv: Vector, id: string)
  {
    && id in items
    && forall j :: j in items ==>
         ScoreOf(items, vectors, score, qv, id) <= ScoreOf(items, vectors, score, qv, j)
  }

  /** `id` was created before `now`, and nothing was created earlier. */
  ghost predicate Oldest(items: Items, now: Time, id: string)
  {
    id in items && items[id].createdAt < now && forall j :: j in items ==> items[id].createdAt <= items[j].createdAt
  }

  ghost predicate AnyPast(items: Items, now: Time)
  {
    exists id :: id in items && items[id].createdAt < now
  }

  /**
   * The capacity rule: nothing is evicted while there is room. Otherwise an item that scores lowest for the
   * probe goes or, when the probe cannot be embedded, an oldest one if any lies in the past.
   */
  ghost predicate Evicts(added: Items, vectors: map<string, Vector>, capacity: nat, score: Scorer,
                         probe: Result<Vector>, later: Time, victim: Option<string>)
  {
    if |added| <= capacity then victim.None?
    else if probe.Ok? then victim.Some? && Lowest(added, vectors, score, probe.value, victim.value)
    else if AnyPast(added, later) then victim.Some? && Oldest(added, later, victim.value)
    else victim.None?
  }

  /**
   * The same in the items' own fields: nothing goes while there is room; otherwise an item goes that scores no higher
   * than any other for the probe or, without a probe, one created no later than any other, if it lies in the past.
   */
  ghost predicate EvictionInFields(added: Items, after: Items, vectors: map<string, Vector>, capacity: nat,
                                   score: Scorer, probe: Result<Vector>, later: Time)
  {
    && (|added| <= capacity ==> after == added)
    && (|added| > capacity && probe.Ok? ==>
          exists v :: v in added && after == added - {v} && forall j :: j in added ==>
            score(probe.value, added[v], if v in vectors then vectors[v] else [])
            <= score(probe.value, added[j], if j in vectors then vectors[j] else []))
    && (|added| > capacity && probe.Err? ==>
          || (exists v :: v in added && after == added - {v} && added[v].createdAt < later
                          && forall j :: j in added ==> added[v].createdAt <= added[j].createdAt)
          || (after == added && forall j :: j in added ==> added[j].createdAt >= later))
  }

  lemma EvictsInFields(added: Items, vectors: map<string, Vector>, capacity: nat, score: Scorer, probe: Result<Vector>,
                       later: Time, victim: Option<string>)
    requires Evicts(added, vectors, capacity, score, probe, later, victim)
    ensures var gone := if victim.Some? then {victim.value} else {};
            EvictionInFields(added, added - gone, vectors, capacity, score, probe, later)
  {
    assert added - {} == added;
  }

  class Working {
    const store: Store
    const capacity: nat

    constructor (capacity: int)
      ensures this.capacity == (if capacity <= 0 then 50 else capacity) && fresh(store)
      ensures store.Valid() && store.items == map[]
    {
      store := new Store();
      this.capacity := if capacity <= 0 then 50 else capacity;
    }

    /** Score everything, sort, remove the lowest. */
    method EvictLowest(score: Scorer, qv: Vector) returns (ghost victim: string)
      requires store.Valid() && store.items != map[]
      modifies store
      ensures store.Valid() && store.counter == old(store.counter)
      ensures Lowest(old(store.items), old(store.vectors), score, qv, victim)
      ensures store.items == old(store.items) - {victim} && store.vectors == old(store.vectors) - {victim}
    {
      var scores := ScoreAll(store.items, store.vectors, score, qv);
      assert StrictWeakOrder(Lower);
      var sorted := Sort(scores, Lower);
      LowestIsFirst(scores, sorted, store.items, store.vectors, score, qv);
      victim := sorted[0].id;
      var ok := store.Remove(sorted[0].id);
    }

    /** Remove the oldest item, if any lies strictly in the past. */
    method EvictOldest(now: Time) returns (ghost victim: Option<string>)
      requires store.Valid()
      modifies store
      ensures store.Valid() && store.counter == old(store.counter)
      ensures victim.Some? <==> AnyPast(old(store.items), now)
      ensures victim.Some? ==> Oldest(old(store.items), now, victim.value)
      ensures var gone := if victim.Some? then {victim.value} else {};
              store.items == old(store.items) - gone && store.vectors == old(store.vectors) - gone
    {
      var oldestID := FindOldest(store.items, now);
      victim := None;
      if oldestID != "" {
        victim := Some(oldestID);
        var ok := store.Remove(oldestID);
      } else {
        assert store.items - {} == store.items && store.vectors - {} == store.vectors;
      }
    }

    /**
     * Add, then evict at most one item if that made the tier too large: the lowest-scoring one for
     * the new content or, when embedding the probe fails, the oldest one if any lies in the past.
     */
    method Add(item: Item, mint: nat -> string, now: Time, later: Time, embed: string -> Result<Vector>,
               probe: Result<Vector>, score: Scorer)
      returns (r: Result<string>, ghost added: Items, ghost victim: Option<string>)
      requires store.Valid() && forall n :: mint(n) != ""
      modifies store
      ensures store.Valid()
      ensures r.Ok? <==> embed(item.content).Ok?
      ensures r.Err? ==> store.items == old(store.items) && store.vectors == old(store.vectors) && victim.None?
      ensures r.Ok? ==>
                var vectors := old(store.vectors)[r.value := embed(item.content).value];
                var gone := if victim.Some? then {victim.value} else {};
                && added == old(store.items)[r.value := Stored(item, r.value, now)]
                && store.items == added - gone && store.vectors == vectors - gone
                && Evicts(added, vectors, capacity, score, probe, later, victim)
                && EvictsOne(added, store.items, capacity, later, probe.Ok?)
                && EvictionInFields(added, store.items, vectors, capacity, score, probe, later)
      ensures |store.items| > Max(|old(store.items)|, capacity) <==>
                r.Ok? && |added| > Max(|old(store.items)|, capacity) && probe.Err? && !AnyPast(added, later)
    {
      r := store.Add(item, mint, now, embed);
      added, victim := store.items, None;
      if r.Err? {
        return;
      }
      AddedSize(old(store.items), r.value, Stored(item, r.value, now));
      victim := EvictIfOverCapacity(later, probe, score);
      EvictsInFields(added, old(store.vectors)[r.value := embed(item.content).value], capacity, score, probe, later,
                     victim);
      hide Lowest, Oldest, EvictsOne, AnyPast, EvictionInFields;
      EvictionSize(old(store.items), added, store.items, victim);
    }

    /** Evict one item if there are too many and one can be chosen. */
    method EvictIfOverCapacity(later: Time, probe: Result<Vector>, score: Scorer) returns (ghost victim: Option<string>)
      requires store.Valid()
      modifies store
      ensures store.Valid() && store.counter == old(store.counter)
      ensures var added, vectors, gone :=
                old(store.items), old(store.vectors), if victim.Some? then {victim.value} else {};
              && store.items == added - gone && store.vectors == vectors - gone
              && (victim.Some? ==> victim.value in added)
              && Evicts(added, vectors, capacity, score, probe, later, victim)
              && EvictsOne(added, store.items, capacity, later, probe.Ok?)
    {
      victim := None;
      assert store.items - {} == store.items && store.vectors - {} == store.vectors;
      if |store.items| <= capacity {
        return;
      }
      if probe.Err? {
        victim := EvictOldest(later);
      } else {
        ghost var id := EvictLowest(score, probe.value);
        victim := Some(id);
      }
    }
  }

  lemma EvictionSize(before: Items, added: Items, after: Items, victim: Option<string>)
    requires |added| <= |before| + 1 && after == added - (if victim.Some? then {victim.value} else {})
    requires victim.Some? ==> victim.value in added
    ensures |after| == if victim.Some? then |added| - 1 else |added|
  {
    if victim.Some? {
      RemovedSize(added, victim.value);
    } else {
      assert after == added;
    }
  }

  // ----- The rule always has a candidate -----

  lemma {:induction false} LowestAmong(items: Items, vectors: map<string, Vector>, score: Scorer, qv: Vector,
                                       ids: set<string>) returns (id: string)
    requires ids != {} && ids <= items.Keys
    ensures id in ids
    ensures forall j :: j in ids ==> ScoreOf(items, vectors, score, qv, id) <= ScoreOf(items, vectors, score, qv, j)
    decreases |ids|
  {
    hide ScoreOf;
    var x :| x in ids;
    id := x;
    if ids != {x} {
      var y := LowestAmong(items, vectors, score, qv, ids - {x});
      if ScoreOf(items, vectors, score, qv, y) < ScoreOf(items, vectors, score, qv, x) {
        id := y;
      }
    }
  }

  lemma {:induction false} OldestAmong(items: Items, ids: set<string>) returns (id: string)
    requires ids != {} && ids <= items.Keys
    ensures id in ids && forall j :: j in ids ==> items[id].createdAt <= items[j].createdAt
    decreases |ids|
  {
    var x :| x in ids;
    id := x;
    if ids != {x} {
      var y := OldestAmong(items, ids - {x});
      if items[y].createdAt < items[x].createdAt {
        id := y;
      }
    }
  }

  /** Whatever the tier holds, the rule says what to do. */
  lemma SomeVictim(added: Items, vectors: map<string, Vector>, capacity: nat, score: Scorer,
                   probe: Result<Vector>, later: Time) returns (victim: Option<string>)
    ensures Evicts(added, vectors, capacity, score, probe, later, victim)
  {
    victim := None;
    if |added| > capacity {
      assert added.Keys != {};
      if probe.Ok? {
        var id := LowestAmong(added, vectors, score, probe.value, added.Keys);
        victim := Some(id);
      } else if AnyPast(added, later) {
        var id := OldestAmong(added, added.Keys);
        victim := Some(id);
      }
    }
  }

  // ----- Runs -----

  /** From `added` to `after`: one item less when there are too many and one can be chosen, otherwise the same. */
  ghost predicate EvictsOne(added: Items, after: Items, capacity: nat, later: Time, probed: bool)
  {
    if |added| > capacity && (probed || AnyPast(added, later))
    then exists victim :: victim in added && after == added - {victim}
    else after == added
  }

  datatype Addition = Addition(id: string, item: Item, later: Time, probed: bool)

  /** An addition that can choose a victim when it needs one. */
  ghost predicate Adds(before: Items, after: Items, capacity: nat, a: Addition)
  {
    var added := before[a.id := a.item];
    EvictsOne(added, after, capacity, a.later, a.probed) && (a.probed || AnyPast(added, a.later))
  }

  /** Such an addition, or a step that adds no key (get, update, remove). */
  ghost predicate Step(before: Items, after: Items, capacity: nat)
  {
    after.Keys <= before.Keys || exists a :: Adds(before, after, capacity, a)
  }

  lemma StepStaysWithin(before: Items, after: Items, capacity: nat)
    requires Step(before, after, capacity)
    ensures |after| <= Max(|before|, capacity)
  {
    if after.Keys <= before.Keys {
      FewerKeys(before, after);
    } else {
      var a :| Adds(before, after, capacity, a);
      EvictedSize(before, after, capacity, a);
    }
  }

  lemma FewerKeys(before: Items, after: Items)
    requires after.Keys <= before.Keys
    ensures |after| <= |before|
  {
    assert before.Keys == after.Keys + (before.Keys - after.Keys);
    assert |after.Keys| <= |before.Keys|;
  }

  lemma EvictedSize(before: Items, after: Items, capacity: nat, a: Addition)
    requires Adds(before, after, capacity, a)
    ensures |after| <= Max(|before|, capacity)
  {
    var added := before[a.id := a.item];
    AddedSize(before, a.id, a.item);
    hide AnyPast;
    if |added| > capacity {
      var victim :| victim in added && after == added - {victim};
      RemovedSize(added, victim);
    }
  }

  /** Runs that start within the capacity stay within it. */
  lemma {:induction false} RunStaysWithin(states: seq<Items>, capacity: nat)
    requires states != [] && |states[0]| <= capacity
    requires forall i :: 0 <= i < |states| - 1 ==> Step(states[i], states[i + 1], capacity)
    ensures |states[|states| - 1]| <= capacity
  {
    if |states| > 1 {
      var init := states[..|states| - 1];
      RunStaysWithin(init, capacity);
      assert Step(init[|init| - 1], states[|states| - 1], capacity);
      StepStaysWithin(init[|init| - 1], states[|states| - 1], capacity);
    }
  }

  function Max(a: int, b: int): int
  {
    if a >= b then a else b
  }

  lemma AddedSize(items: Items, id: string, it: Item)
    ensures |items[id := it]| <= |items| + 1
  {
    assert items[id := it].Keys == items.Keys + {id};
  }

  lemma RemovedSize(items: Items, id: string)
    requires id in items
    ensures |items - {id}| == |items| - 1
  {
    assert (items - {id}).Keys == items.Keys - {id};
  }

  method ScoreAll(items: Items, vectors: map<string, Vector>, score: Scorer, qv: Vector) returns (out: seq<Scored>)
    ensures forall p :: p in out <==> p.id in items && p.score == ScoreOf(items, vectors, score, qv, p.id)
  {
    out := [];
    var todo := items.Keys;
    while todo != {}
      invariant todo <= items.Keys
      invariant forall p :: p in out <==>
                  p.id in items && p.id !in todo && p.score == ScoreOf(items, vectors, score, qv, p.id)
      decreases todo
    {
      var id :| id in todo;
      out := out + [Scored(id, score(qv, items[id], VectorOf(vectors, id)))];
      todo := todo - {id};
    }
  }

  lemma LowestIsFirst(scores: seq<Scored>, sorted: seq<Scored>, items: Items, vectors: map<string, Vector>,
                      score: Scorer, qv: Vector)
    requires items != map[] && Permutation(sorted, scores) && Sorted(sorted, Lower)
    requires forall p :: p in scores <==> p.id in items && p.score == ScoreOf(items, vectors, score, qv, p.id)
    ensures sorted != [] && Lowest(items, vectors, score, qv, sorted[0].id)
  {
    SameElements(sorted, scores);
    var k :| k in items;
    assert Scored(k, ScoreOf(items, vectors, score, qv, k)) in sorted;
    assert sorted[0] in scores;
    forall j | j in items
      ensures ScoreOf(items, vectors, score, qv, sorted[0].id) <= ScoreOf(items, vectors, score, qv, j)
    {
      var i :| 0 <= i < |sorted| && sorted[i] == Scored(j, ScoreOf(items, vectors, score, qv, j));
      assert i > 0 ==> !Lower(sorted[i], sorted[0]);
    }
  }

  method FindOldest(items: Items, now: Time) returns (oldestID: string)
    requires WellFormed(items)
    ensures oldestID != "" <==> AnyPast(items, now)
    ensures oldestID != "" ==> Oldest(items, now, oldestID)
  {
    oldestID := "";
    var oldest := now;
    var todo := items.Keys;
    while todo != {}
      invariant todo <= items.Keys
      invariant oldest <= now && (oldestID == "" ==> oldest == now)
      invariant oldestID != "" ==> oldestID in items && items[oldestID].createdAt == oldest < now
      invariant forall j :: j in items && j !in todo ==> oldest <= items[j].createdAt
      decreases todo
    {
      var id :| id in todo;
      if items[id].createdAt < oldest {
        oldest, oldestID := items[id].createdAt, id;
      }
      todo := todo - {id};
    }
  }
}
