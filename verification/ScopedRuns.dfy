/**
 * What scoped operations may touch, one by one and over whole runs (memory/scoped_manager_local.go).
 * Gets, updates and removals check the scope of the stored item; additions check nothing.
 */
module ScopedRuns {
  import opened Types
  import opened ScoredStore
  import opened Scoping
  import WorkingMemory

  /** One tier's items and vectors, the metadata maps, and the number of IDs minted. */
  datatype World = World(heap: Heap, next: nat, items: Items, vectors: map<string, Vector>, minted: nat)

  /** The working tier has a capacity and a score to evict by; the other tiers have none. */
  datatype Tier = Unbounded | Bounded(capacity: nat, score: WorkingMemory.Scorer)

  /**
   * What an update's callback leaves behind: the item, what it wrote into maps that existed before, and
   * the contents of a new map if it gave the item one. Without one the item refers to `item.meta`.
   */
  datatype Edit = Edit(item: Item, writes: map<nat, Metadata>, newMap: Option<Metadata>)

  /**
   * `vector` is what embedding the new content gives, `probe` what embedding it again for the eviction
   * gives, and `later` the time at which an oldest item is looked for.
   */
  datatype Op =
    | Get(id: string)
    | Update(id: string, change: (Item, Heap) -> Edit, vector: Result<Vector>)
    | Remove(id: string)
    | Add(item: Item, vector: Result<Vector>, probe: Result<Vector>, later: Time)

  predicate Allocated(heap: Heap, ref: MetaRef)
  {
    ref.Meta? ==> ref.addr in heap
  }

  ghost predicate ValidWorld(w: World)
  {
    && WellFormed(w.items)
    && (forall a :: a in w.heap ==> a < w.next)
    && (forall id :: id in w.items ==> Allocated(w.heap, w.items[id].meta))
  }

  // ----- What each operation does -----

  function Touch(w: World, id: string, now: Time): World
    requires id in w.items
  {
    w.(items := w.items[id := w.items[id].(accessedAt := now)])
  }

  /** The callback's edit of a stored item. */
  function EditOf(w: World, id: string, change: (Item, Heap) -> Edit): Edit
    requires id in w.items
  {
    change(w.items[id], w.heap)
  }

  /** Apply an edit; the store renews the access time, clamps the importance, and embeds changed content. */
  function Rewrite(w: World, id: string, e: Edit, vector: Result<Vector>, now: Time): World
    requires id in w.items
  {
    var ref := if e.newMap.Some? then Meta(w.next) else e.item.meta;
    var it := Changed(e.item.(meta := ref), now);
    var heap := w.heap + e.writes;
    w.(items := w.items[id := it],
       heap := if e.newMap.Some? then heap[w.next := e.newMap.value] else heap,
       next := if e.newMap.Some? then w.next + 1 else w.next,
       vectors := if it.content != w.items[id].content && vector.Ok? then w.vectors[id := vector.value] else w.vectors)
  }

  /** The ID under which an addition is stored. */
  function Target(w: World, item: Item, mint: nat -> string): string
  {
    if item.id == "" then mint(w.minted + 1) else item.id
  }

  /** The tier with the new item, before any eviction. */
  function AddedItems(w: World, s: Scope, item: Item, now: Time, mint: nat -> string): Items
  {
    var id, it := Target(w, item, mint), StampScope(w.heap, w.next, item, s).2;
    w.items[id := Stored(it, id, now)]
  }

  function AddedVectors(w: World, item: Item, vector: Vector, mint: nat -> string): map<string, Vector>
  {
    w.vectors[Target(w, item, mint) := vector]
  }

  /** Stamp the scope, mint an ID if none is given, embed, store, evict. */
  function AddItem(w: World, s: Scope, op: Op, now: Time, mint: nat -> string, victim: Option<string>): World
    requires op.Add?
  {
    var (heap, next, _) := StampScope(w.heap, w.next, op.item, s);
    var w' := w.(heap := heap, next := next, minted := if op.item.id == "" then w.minted + 1 else w.minted);
    if op.vector.Err? then w'
    else
      var gone := if victim.Some? then {victim.value} else {};
      w'.(items := AddedItems(w, s, op.item, now, mint) - gone,
          vectors := AddedVectors(w, op.item, op.vector.value, mint) - gone)
  }

  /** The choices that the tier's capacity rule leaves to an operation. */
  ghost predicate Picks(w: World, s: Scope, tier: Tier, op: Op, now: Time, mint: nat -> string, victim: Option<string>)
  {
    if op.Add? && op.vector.Ok? && tier.Bounded?
    then WorkingMemory.Evicts(AddedItems(w, s, op.item, now, mint), AddedVectors(w, op.item, op.vector.value, mint),
                              tier.capacity, tier.score, op.probe, op.later, victim)
    else victim.None?
  }

  /** Get first (which touches the access time), check the scope, only then act; an addition checks nothing. */
  function Step(w: World, s: Scope, matches: (Scope, Scope) -> bool, op: Op, now: Time, mint: nat -> string,
                victim: Option<string>): (World, Option<Item>)
  {
    if op.Add? then (AddItem(w, s, op, now, mint, victim), None)
    else if op.id !in w.items then (w, None)
    else
      var w' := Touch(w, op.id, now);
      var it := w'.items[op.id];
      if !matches(s, ReadScope(w'.heap, it)) then (w', None)
      else match op
           case Get(_) => (w', Some(it))
           case Update(id, change, vector) => (Rewrite(w', id, EditOf(w', id, change), vector, now), None)
           case Remove(id) => (w'.(items := w'.items - {id}, vectors := w'.vectors - {id}), None)
  }

  /** A callback keeps the ID and deals in maps that exist; an added item refers to one or to none. */
  ghost predicate Possible(w: World, op: Op, now: Time)
  {
    match op
    case Update(id, change, _) =>
      id in w.items ==>
        var e := EditOf(Touch(w, id, now), id, change);
        e.item.id == id && e.writes.Keys <= w.heap.Keys && (e.newMap.None? ==> Allocated(w.heap, e.item.meta))
    case Add(item, _, _, _) => Allocated(w.heap, item.meta)
    case _ => true
  }

  // ----- Items of other scopes -----

  /** An item that the scope does not match. */
  ghost predicate Foreign(w: World, s: Scope, matches: (Scope, Scope) -> bool, id: string)
  {
    id in w.items && !matches(s, ReadScope(w.heap, w.items[id]))
  }

  /** The item is still there, unchanged except perhaps its access time, with the same metadata and vector. */
  ghost predicate Untouched(w: World, w': World, id: string)
  {
    && id in w.items && id in w'.items
    && w'.items[id].(accessedAt := w.items[id].accessedAt) == w.items[id]
    && MetaOf(w'.heap, w'.items[id].meta) == MetaOf(w.heap, w.items[id].meta)
    && (id in w'.vectors <==> id in w.vectors)
    && (id in w.vectors ==> w'.vectors[id] == w.vectors[id])
  }

  /** Every item of another scope is untouched. */
  ghost predicate Confined(w: World, w': World, s: Scope, matches: (Scope, Scope) -> bool)
  {
    forall id :: Foreign(w, s, matches, id) ==> Untouched(w, w', id)
  }

  lemma SameScope(w: World, w': World, id: string)
    requires Untouched(w, w', id)
    ensures ReadScope(w'.heap, w'.items[id]) == ReadScope(w.heap, w.items[id])
    ensures w'.items[id].meta == w.items[id].meta
  {
  }

  // ----- Additions -----

  /** If the tier is full, no item of another scope is one that the capacity rule may evict. */
  ghost predicate EvictsWithin(w: World, s: Scope, matches: (Scope, Scope) -> bool, tier: Tier, op: Op, now: Time,
                               mint: nat -> string)
    requires op.Add? && op.vector.Ok? && tier.Bounded?
  {
    var added, vectors := AddedItems(w, s, op.item, now, mint), AddedVectors(w, op.item, op.vector.value, mint);
    |added| > tier.capacity ==>
      forall id :: Foreign(w, s, matches, id) ==>
        if op.probe.Ok? then !WorkingMemory.Lowest(added, vectors, tier.score, op.probe.value, id)
        else !WorkingMemory.Oldest(added, op.later, id)
  }

  /**
   * The addition hits no item of another scope: none has its ID, none has its metadata map, and if the tier
   * is full none scores lowest (or is oldest, when the probe cannot be embedded).
   */
  ghost predicate AddsWithin(w: World, s: Scope, matches: (Scope, Scope) -> bool, tier: Tier, op: Op, now: Time,
                             mint: nat -> string)
    requires op.Add?
  {
    && (op.item.meta.Meta? ==> forall id :: Foreign(w, s, matches, id) ==> w.items[id].meta != op.item.meta)
    && (op.vector.Ok? ==> !Foreign(w, s, matches, Target(w, op.item, mint)))
    && (op.vector.Ok? && tier.Bounded? ==> EvictsWithin(w, s, matches, tier, op, now, mint))
  }

  /** After an addition under a non-zero scope, the stamped map, and the stored item if it stays, show that scope. */
  lemma AddedShowsScope(w: World, s: Scope, op: Op, now: Time, mint: nat -> string, victim: Option<string>)
    requires op.Add? && !IsZero(s)
    ensures var w' := AddItem(w, s, op, now, mint, victim);
            && (op.item.meta.Meta? ==> ScopeIn(MetaOf(w'.heap, op.item.meta)) == s)
            && (op.vector.Ok? && Target(w, op.item, mint) in w'.items ==>
                  ReadScope(w'.heap, w'.items[Target(w, op.item, mint)]) == s)
  {
    StampReadsBack(w.heap, w.next, op.item, s);
  }

  lemma AddKeepsValid(w: World, s: Scope, op: Op, now: Time, mint: nat -> string, victim: Option<string>)
    requires ValidWorld(w) && op.Add? && Possible(w, op, now) && forall n :: mint(n) != ""
    ensures ValidWorld(AddItem(w, s, op, now, mint, victim))
  {
  }

  /** An addition whose ID, map and victim are not those of `id` leaves `id` alone. */
  lemma AddLeaves(w: World, s: Scope, op: Op, now: Time, mint: nat -> string, victim: Option<string>, id: string)
    requires ValidWorld(w) && op.Add? && id in w.items
    requires op.item.meta.Meta? ==> w.items[id].meta != op.item.meta
    requires op.vector.Ok? ==> id != Target(w, op.item, mint) && victim != Some(id)
    ensures Untouched(w, AddItem(w, s, op, now, mint, victim), id)
  {
    assert w.next !in w.heap;
    assert Allocated(w.heap, w.items[id].meta);
    hide Written;
  }

  lemma AddKeepsOthers(w: World, s: Scope, matches: (Scope, Scope) -> bool, tier: Tier, op: Op, now: Time,
                       mint: nat -> string, victim: Option<string>, id: string)
    requires ValidWorld(w) && op.Add? && AddsWithin(w, s, matches, tier, op, now, mint)
    requires Picks(w, s, tier, op, now, mint, victim) && Foreign(w, s, matches, id)
    ensures Untouched(w, AddItem(w, s, op, now, mint, victim), id)
  {
    hide AddedItems, AddedVectors, ReadScope, WorkingMemory.Lowest, WorkingMemory.Oldest;
    AddLeaves(w, s, op, now, mint, victim, id);
  }

  lemma NotAfterOverwrite(w: World, w': World, s: Scope, matches: (Scope, Scope) -> bool, id: string)
    requires Foreign(w, s, matches, id) && matches(s, s)
    requires id in w'.items && w'.items[id].meta == w.items[id].meta ==> ReadScope(w'.heap, w'.items[id]) == s
    ensures !Untouched(w, w', id)
  {
    if Untouched(w, w', id) {
      SameScope(w, w', id);
      assert false;
    }
  }

  /** An addition that violates the condition has an outcome that hits an item of another scope. */
  lemma AddHitsOther(w: World, s: Scope, matches: (Scope, Scope) -> bool, tier: Tier, op: Op, now: Time,
                     mint: nat -> string) returns (victim: Option<string>, id: string)
    requires op.Add? && !IsZero(s) && matches(s, s) && !AddsWithin(w, s, matches, tier, op, now, mint)
    ensures Picks(w, s, tier, op, now, mint, victim) && Foreign(w, s, matches, id)
    ensures !Untouched(w, AddItem(w, s, op, now, mint, victim), id)
  {
    if op.item.meta.Meta? && exists j :: Foreign(w, s, matches, j) && w.items[j].meta == op.item.meta {
      victim := SomePick(w, s, tier, op, now, mint);
      id :| Foreign(w, s, matches, id) && w.items[id].meta == op.item.meta;
      AddedShowsScope(w, s, op, now, mint, victim);
      NotAfterOverwrite(w, AddItem(w, s, op, now, mint, victim), s, matches, id);
    } else if op.vector.Ok? && Foreign(w, s, matches, Target(w, op.item, mint)) {
      victim := SomePick(w, s, tier, op, now, mint);
      id := Target(w, op.item, mint);
      AddedShowsScope(w, s, op, now, mint, victim);
      NotAfterOverwrite(w, AddItem(w, s, op, now, mint, victim), s, matches, id);
    } else {
      id := EvictableForeign(w, s, matches, tier, op, now, mint);
      victim := Some(id);
    }
  }

  lemma SomePick(w: World, s: Scope, tier: Tier, op: Op, now: Time, mint: nat -> string)
    returns (victim: Option<string>)
    ensures Picks(w, s, tier, op, now, mint, victim)
  {
    victim := None;
    if op.Add? && op.vector.Ok? && tier.Bounded? {
      victim := WorkingMemory.SomeVictim(AddedItems(w, s, op.item, now, mint),
                                         AddedVectors(w, op.item, op.vector.value, mint),
                                         tier.capacity, tier.score, op.probe, op.later);
    }
  }

  lemma EvictableForeign(w: World, s: Scope, matches: (Scope, Scope) -> bool, tier: Tier, op: Op, now: Time,
                         mint: nat -> string) returns (id: string)
    requires op.Add? && op.vector.Ok? && tier.Bounded? && !EvictsWithin(w, s, matches, tier, op, now, mint)
    ensures Foreign(w, s, matches, id) && Picks(w, s, tier, op, now, mint, Some(id))
  {
    hide AddedItems, AddedVectors;
    id :| Foreign(w, s, matches, id) &&
          var added, vectors := AddedItems(w, s, op.item, now, mint), AddedVectors(w, op.item, op.vector.value, mint);
          if op.probe.Ok? then WorkingMemory.Lowest(added, vectors, tier.score, op.probe.value, id)
          else WorkingMemory.Oldest(added, op.later, id);
  }

  /**
   * A scoped addition leaves all items of other scopes alone, whichever of several candidates the capacity
   * rule evicts, if and only if none of them has its ID, none has its metadata map, and, when the tier is
   * full, none scores lowest for the new content (or is oldest, when that cannot be embedded).
   */
  lemma AddIsConfinedIff(w: World, s: Scope, matches: (Scope, Scope) -> bool, tier: Tier, op: Op, now: Time,
                         mint: nat -> string)
    requires ValidWorld(w) && op.Add? && !IsZero(s) && matches(s, s)
    ensures (forall victim :: Picks(w, s, tier, op, now, mint, victim) ==>
               Confined(w, Step(w, s, matches, op, now, mint, victim).0, s, matches)) <==>
            AddsWithin(w, s, matches, tier, op, now, mint)
  {
    hide AddItem, Foreign, Untouched, AddsWithin, Picks, ValidWorld;
    if AddsWithin(w, s, matches, tier, op, now, mint) {
      forall victim, id | Picks(w, s, tier, op, now, mint, victim) && Foreign(w, s, matches, id)
        ensures Untouched(w, AddItem(w, s, op, now, mint, victim), id)
      {
        AddKeepsOthers(w, s, matches, tier, op, now, mint, victim, id);
      }
    } else {
      var victim, id := AddHitsOther(w, s, matches, tier, op, now, mint);
      assert !Confined(w, AddItem(w, s, op, now, mint, victim), s, matches);
    }
  }

  /** Adding under the ID of another scope's item destroys that item: nothing checks the scope on the way. */
  lemma AddOverwrites(w: World, s: Scope, matches: (Scope, Scope) -> bool, item: Item, vector: Vector, now: Time,
                      mint: nat -> string)
    requires !IsZero(s) && matches(s, s)
    requires item.id != "" && item.meta.NilMeta? && Foreign(w, s, matches, item.id)
    ensures var w' := Step(w, s, matches, Add(item, Ok(vector), Ok(vector), now), now, mint, None).0;
            !Untouched(w, w', item.id) && item.id in w'.items && ReadScope(w'.heap, w'.items[item.id]) == s
  {
    var op := Add(item, Ok(vector), Ok(vector), now);
    var w' := AddItem(w, s, op, now, mint, None);
    assert item.id in w'.items;
    AddedShowsScope(w, s, op, now, mint, None);
    NotAfterOverwrite(w, w', s, matches, item.id);
  }

  /**
   * Adding a new item to a full working tier whose lowest-scoring item belongs to another scope evicts that
   * item: it is the only choice, and it is gone afterwards.
   */
  lemma AddEvictsForeign(w: World, s: Scope, matches: (Scope, Scope) -> bool, tier: Tier, op: Op, now: Time,
                         mint: nat -> string, id: string, victim: Option<string>)
    requires tier.Bounded? && |w.items| >= tier.capacity
    requires op.Add? && op.vector.Ok? && op.probe.Ok? && Target(w, op.item, mint) !in w.items
    requires Foreign(w, s, matches, id)
    requires var added := AddedItems(w, s, op.item, now, mint);
             var vectors := AddedVectors(w, op.item, op.vector.value, mint);
             forall j :: j in added && j != id ==>
               WorkingMemory.ScoreOf(added, vectors, tier.score, op.probe.value, id)
               < WorkingMemory.ScoreOf(added, vectors, tier.score, op.probe.value, j)
    ensures Picks(w, s, tier, op, now, mint, victim) <==> victim == Some(id)
    ensures id !in Step(w, s, matches, op, now, mint, Some(id)).0.items
  {
    var added := AddedItems(w, s, op.item, now, mint);
    assert added.Keys == w.items.Keys + {Target(w, op.item, mint)};
    assert |added.Keys| == |w.items.Keys| + 1;
    hide AddedItems, AddedVectors, WorkingMemory.ScoreOf;
  }

  // ----- Updates -----

  /** The callback leaves the maps of items of other scopes as they are. */
  ghost predicate WritesWithin(w: World, s: Scope, matches: (Scope, Scope) -> bool, e: Edit)
  {
    forall id :: Foreign(w, s, matches, id) && w.items[id].meta.Meta? && w.items[id].meta.addr in e.writes ==>
      e.writes[w.items[id].meta.addr] == MetaOf(w.heap, w.items[id].meta)
  }

  lemma RewriteKeepsValid(w: World, id: string, e: Edit, vector: Result<Vector>, now: Time)
    requires ValidWorld(w) && id in w.items && e.item.id == id && e.writes.Keys <= w.heap.Keys
    requires e.newMap.None? ==> Allocated(w.heap, e.item.meta)
    ensures ValidWorld(Rewrite(w, id, e, vector, now))
  {
  }

  lemma RewriteIsConfinedIff(w: World, s: Scope, matches: (Scope, Scope) -> bool, id: string, e: Edit,
                             vector: Result<Vector>, now: Time)
    requires ValidWorld(w) && id in w.items && matches(s, ReadScope(w.heap, w.items[id]))
    requires e.item.id == id && e.writes.Keys <= w.heap.Keys
    ensures Confined(w, Rewrite(w, id, e, vector, now), s, matches) <==> WritesWithin(w, s, matches, e)
  {
    var w' := Rewrite(w, id, e, vector, now);
    forall other | Foreign(w, s, matches, other)
      ensures Untouched(w, w', other) <==>
                (w.items[other].meta.Meta? && w.items[other].meta.addr in e.writes ==>
                   e.writes[w.items[other].meta.addr] == MetaOf(w.heap, w.items[other].meta))
    {
      RewrittenAside(w, id, e, vector, now, other);
    }
  }

  lemma RewrittenAside(w: World, id: string, e: Edit, vector: Result<Vector>, now: Time, other: string)
    requires ValidWorld(w) && id in w.items && other in w.items && other != id && e.writes.Keys <= w.heap.Keys
    ensures Untouched(w, Rewrite(w, id, e, vector, now), other) <==>
              (w.items[other].meta.Meta? && w.items[other].meta.addr in e.writes ==>
                 e.writes[w.items[other].meta.addr] == MetaOf(w.heap, w.items[other].meta))
  {
    assert w.next !in w.heap && Allocated(w.heap, w.items[other].meta);
  }

  /** A callback that writes at most the item's own map stays within the scope, even if the map is shared. */
  lemma OwnWritesStayWithin(w: World, s: Scope, matches: (Scope, Scope) -> bool, id: string, e: Edit)
    requires id in w.items && matches(s, ReadScope(w.heap, w.items[id]))
    requires forall a :: a in e.writes ==> w.items[id].meta == Meta(a)
    ensures WritesWithin(w, s, matches, e)
  {
  }

  /** An update of an item of the scope leaves the others alone exactly when its callback leaves their maps alone. */
  lemma UpdateIsConfinedIff(w: World, s: Scope, matches: (Scope, Scope) -> bool, op: Op, now: Time,
                            mint: nat -> string)
    requires ValidWorld(w) && op.Update? && Possible(w, op, now)
    requires op.id in w.items && matches(s, ReadScope(w.heap, w.items[op.id]))
    ensures Confined(w, Step(w, s, matches, op, now, mint, None).0, s, matches) <==>
            WritesWithin(w, s, matches, EditOf(Touch(w, op.id, now), op.id, op.change))
  {
    var w1 := Touch(w, op.id, now);
    var e := EditOf(w1, op.id, op.change);
    var w' := Rewrite(w1, op.id, e, op.vector, now);
    TouchIsHarmless(w, s, matches, op.id, now);
    hide EditOf, Rewrite;
    RewriteIsConfinedIff(w1, s, matches, op.id, e, op.vector, now);
    SeenThroughTouch(w, s, matches, op.id, now, w');
    hide Untouched;
    assert WritesWithin(w1, s, matches, e) <==> WritesWithin(w, s, matches, e) by {
      TouchKeepsWrites(w, s, matches, op.id, now, e);
    }
  }

  lemma TouchIsHarmless(w: World, s: Scope, matches: (Scope, Scope) -> bool, id: string, now: Time)
    requires ValidWorld(w) && id in w.items
    ensures ValidWorld(Touch(w, id, now)) && Confined(w, Touch(w, id, now), s, matches)
  {
  }

  lemma TouchKeepsWrites(w: World, s: Scope, matches: (Scope, Scope) -> bool, id: string, now: Time, e: Edit)
    requires id in w.items
    ensures WritesWithin(Touch(w, id, now), s, matches, e) <==> WritesWithin(w, s, matches, e)
  {
    var w1 := Touch(w, id, now);
    assert forall j :: Foreign(w1, s, matches, j) <==> Foreign(w, s, matches, j);
    assert forall j :: j in w.items ==> w1.items[j].meta == w.items[j].meta;
  }

  /** Confinement is the same seen from before the touch. */
  lemma SeenThroughTouch(w: World, s: Scope, matches: (Scope, Scope) -> bool, id: string, now: Time, w': World)
    requires id in w.items
    ensures Confined(Touch(w, id, now), w', s, matches) <==> Confined(w, w', s, matches)
  {
    var w1 := Touch(w, id, now);
    forall j
      ensures Foreign(w1, s, matches, j) <==> Foreign(w, s, matches, j)
      ensures Foreign(w, s, matches, j) ==> (Untouched(w1, w', j) <==> Untouched(w, w', j))
    {
    }
  }

  // ----- All operations -----

  /** An operation the interface allows, with the conditions under which additions and updates stay within. */
  ghost predicate Allowed(w: World, s: Scope, matches: (Scope, Scope) -> bool, tier: Tier, op: Op, now: Time,
                          mint: nat -> string)
  {
    && Possible(w, op, now) && (forall n :: mint(n) != "")
    && (op.Add? ==> AddsWithin(w, s, matches, tier, op, now, mint))
    && (op.Update? && op.id in w.items ==>
          WritesWithin(w, s, matches, EditOf(Touch(w, op.id, now), op.id, op.change)))
  }

  /** A scoped operation returns only items of its scope and leaves every other item alone. */
  lemma StepIsConfined(w: World, s: Scope, matches: (Scope, Scope) -> bool, tier: Tier, op: Op, now: Time,
                       mint: nat -> string, victim: Option<string>)
    requires ValidWorld(w) && Allowed(w, s, matches, tier, op, now, mint)
    requires Picks(w, s, tier, op, now, mint, victim)
    ensures var (w', r) := Step(w, s, matches, op, now, mint, victim);
            && ValidWorld(w') && Confined(w, w', s, matches)
            && (r.Some? ==> !op.Add? && matches(s, ReadScope(w.heap, r.value)) && r.value.id == op.id)
  {
    if op.Add? {
      hide AddItem, Untouched, Foreign, ValidWorld, Picks;
      AddKeepsValid(w, s, op, now, mint, victim);
      forall id | Foreign(w, s, matches, id)
        ensures Untouched(w, AddItem(w, s, op, now, mint, victim), id)
      {
        AddKeepsOthers(w, s, matches, tier, op, now, mint, victim, id);
      }
    } else if op.id in w.items {
      GuardedIsConfined(w, s, matches, op, now, mint);
    } else {
      assert Confined(w, w, s, matches);
    }
  }

  lemma GuardedIsConfined(w: World, s: Scope, matches: (Scope, Scope) -> bool, op: Op, now: Time, mint: nat -> string)
    requires ValidWorld(w) && Possible(w, op, now) && !op.Add? && op.id in w.items
    requires op.Update? ==> WritesWithin(w, s, matches, EditOf(Touch(w, op.id, now), op.id, op.change))
    ensures var (w', r) := Step(w, s, matches, op, now, mint, None);
            && ValidWorld(w') && Confined(w, w', s, matches)
            && (r.Some? ==> matches(s, ReadScope(w.heap, r.value)) && r.value.id == op.id)
  {
    TouchIsHarmless(w, s, matches, op.id, now);
    if op.Update? && matches(s, ReadScope(w.heap, w.items[op.id])) {
      UpdateIsConfinedIff(w, s, matches, op, now, mint);
      var w1 := Touch(w, op.id, now);
      hide Confined, WritesWithin;
      RewriteKeepsValid(w1, op.id, EditOf(w1, op.id, op.change), op.vector, now);
    }
  }

  /** What an edit does to the tier, item, maps and vector. */
  ghost predicate Applies(w: World, w': World, id: string, e: Edit, vector: Result<Vector>, now: Time)
  {
    && id in w.items && w'.items.Keys == w.items.Keys
    && (forall j :: j in w.items && j != id ==> w'.items[j] == w.items[j])
    && w'.items[id].(meta := e.item.meta) == Changed(e.item, now)
    && (forall a :: a in w.heap ==>
          a in w'.heap && w'.heap[a] == (if a in e.writes then e.writes[a] else w.heap[a]))
    && (if e.newMap.Some? then MetaOf(w'.heap, w'.items[id].meta) == e.newMap.value
        else w'.items[id].meta == e.item.meta)
    && w'.vectors == if e.item.content != w.items[id].content && vector.Ok? then w.vectors[id := vector.value]
                     else w.vectors
  }

  lemma RewriteApplies(w: World, id: string, e: Edit, vector: Result<Vector>, now: Time)
    requires ValidWorld(w) && id in w.items && e.item.id == id && e.writes.Keys <= w.heap.Keys
    ensures Applies(w, Rewrite(w, id, e, vector, now), id, e, vector, now)
  {
    assert w.next !in w.heap;
  }

  /** On an item of the scope the operation takes effect: returned, rewritten with its map and vector, or deleted. */
  lemma StepActs(w: World, s: Scope, matches: (Scope, Scope) -> bool, op: Op, now: Time, mint: nat -> string)
    requires ValidWorld(w) && Possible(w, op, now) && !op.Add?
    requires op.id in w.items && matches(s, ReadScope(w.heap, w.items[op.id]))
    ensures var (w', r) := Step(w, s, matches, op, now, mint, None);
            var it := w.items[op.id].(accessedAt := now);
            match op
            case Get(id) => r == Some(it) && w' == w.(items := w.items[id := it])
            case Remove(id) => w'.items == w.items - {id} && w'.vectors == w.vectors - {id} && w'.heap == w.heap
            case Update(id, change, vector) => Applies(Touch(w, id, now), w', id, change(it, w.heap), vector, now)
  {
    var w1 := Touch(w, op.id, now);
    assert w1.items - {op.id} == w.items - {op.id};
    TouchIsHarmless(w, s, matches, op.id, now);
    if op.Update? {
      hide Rewrite, Applies, Confined, ValidWorld;
      RewriteApplies(w1, op.id, EditOf(w1, op.id, op.change), op.vector, now);
    }
  }

  /** On a missing item, or one of another scope, nothing is returned and at most an access time is renewed. */
  lemma StepRefuses(w: World, s: Scope, matches: (Scope, Scope) -> bool, op: Op, now: Time, mint: nat -> string)
    requires !op.Add? && (op.id in w.items ==> !matches(s, ReadScope(w.heap, w.items[op.id])))
    ensures var (w', r) := Step(w, s, matches, op, now, mint, None);
            && r.None?
            && w' == if op.id in w.items then w.(items := w.items[op.id := w.items[op.id].(accessedAt := now)]) else w
  {
  }

  /** The stored item of an addition, field by field. */
  lemma AddActs(w: World, s: Scope, op: Op, now: Time, mint: nat -> string, victim: Option<string>)
    requires op.Add? && op.vector.Ok?
    ensures var w' := AddItem(w, s, op, now, mint, victim);
            var id := if op.item.id == "" then mint(w.minted + 1) else op.item.id;
            && w'.minted == (if op.item.id == "" then w.minted + 1 else w.minted)
            && (victim != Some(id) ==>
                  && id in w'.items && id in w'.vectors && w'.vectors[id] == op.vector.value
                  && var it := w'.items[id];
                  && it.id == id && it.content == op.item.content && it.tags == op.item.tags && it.accessedAt == now
                  && it.createdAt == (if op.item.createdAt == 0 then now else op.item.createdAt)
                  && (0.0 <= op.item.importance <= 1.0 ==> it.importance == op.item.importance))
  {
    hide Written, ReadScope;
  }

  /** An addition changes no item but its own and the evicted one, and nothing at all if embedding fails. */
  lemma AddSparesOthers(w: World, s: Scope, op: Op, now: Time, mint: nat -> string, victim: Option<string>, j: string)
    requires op.Add? && j != (if op.item.id == "" then mint(w.minted + 1) else op.item.id)
    ensures var w' := AddItem(w, s, op, now, mint, victim);
            && (op.vector.Err? ==> w'.items == w.items && w'.vectors == w.vectors)
            && (op.vector.Ok? && victim.Some? ==> victim.value !in w'.items && victim.value !in w'.vectors)
            && (op.vector.Ok? && victim != Some(j) ==>
                  && (j in w'.items <==> j in w.items) && (j in w.items ==> w'.items[j] == w.items[j])
                  && (j in w'.vectors <==> j in w.vectors) && (j in w.vectors ==> w'.vectors[j] == w.vectors[j]))
  {
    hide Written, ReadScope, StampScope;
  }

  ghost predicate Run(worlds: seq<World>, s: Scope, matches: (Scope, Scope) -> bool, tier: Tier, mint: nat -> string)
  {
    && worlds != [] && ValidWorld(worlds[0])
    && forall i :: 0 <= i < |worlds| - 1 ==> Steps(worlds[i], worlds[i + 1], s, matches, tier, mint)
  }

  ghost predicate Steps(w: World, w': World, s: Scope, matches: (Scope, Scope) -> bool, tier: Tier,
                        mint: nat -> string)
  {
    exists op, now, victim ::
      && Allowed(w, s, matches, tier, op, now, mint) && Picks(w, s, tier, op, now, mint, victim)
      && w' == Step(w, s, matches, op, now, mint, victim).0
  }

  lemma UntouchedTwice(w: World, w': World, w'': World, s: Scope, matches: (Scope, Scope) -> bool, id: string)
    requires Foreign(w, s, matches, id) && Untouched(w, w', id) && Confined(w', w'', s, matches)
    ensures Untouched(w, w'', id)
  {
    SameScope(w, w', id);
    assert Foreign(w', s, matches, id);
  }

  /**
   * Over any run of gets, updates, removals and additions under one scope, in which callbacks leave the maps
   * of other scopes' items alone and additions meet their condition, items of other scopes are never changed
   * or deleted, whatever the capacity rule evicts.
   */
  lemma {:induction false} RunIsConfined(worlds: seq<World>, s: Scope, matches: (Scope, Scope) -> bool, tier: Tier,
                                         mint: nat -> string, id: string)
    requires Run(worlds, s, matches, tier, mint) && Foreign(worlds[0], s, matches, id)
    ensures ValidWorld(worlds[|worlds| - 1]) && Untouched(worlds[0], worlds[|worlds| - 1], id)
  {
    if |worlds| > 1 {
      var init, last := worlds[..|worlds| - 1], worlds[|worlds| - 1];
      hide Step, Foreign, Untouched, ValidWorld, Allowed, Confined, Picks;
      RunIsConfined(init, s, matches, tier, mint, id);
      var w := init[|init| - 1];
      assert Steps(w, last, s, matches, tier, mint);
      var op, now, victim :|
        && Allowed(w, s, matches, tier, op, now, mint) && Picks(w, s, tier, op, now, mint, victim)
        && last == Step(w, s, matches, op, now, mint, victim).0;
      StepIsConfined(w, s, matches, tier, op, now, mint, victim);
      UntouchedTwice(worlds[0], w, last, s, matches, id);
    }
  }
}
