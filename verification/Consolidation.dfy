/** Promotion of working items into the episodic tier (memory/consolidator.go). */
module Consolidation {
  import opened Types
  import opened Listing
  import opened Rounds
  import opened PagedLoop
  import opened CycledListing
  import opened ScoredStore

  const CONSOLIDATED_AT := "_consolidated_at"
  const PROMOTED_FROM := "_promoted_from"
  const PROMOTION_COUNT := "_promotion_count"

  datatype ConsolidateOptions = ConsolidateOptions(threshold: real, minAge: int)

  /** The two tiers and the metadata maps their items refer to; maps are allocated at `next`. */
  datatype World = World(heap: Heap, next: nat, working: Items, episodic: Items, minted: nat)

  /** Conversion of a float to an int drops the fraction. */
  function Truncate(f: real): int
  {
    if f >= 0.0 then f.Floor else -((-f).Floor)
  }

  function PromotionCount(heap: Heap, it: Item): int
  {
    var m := MetaOf(heap, it.meta);
    if PROMOTION_COUNT !in m then 0
    else match m[PROMOTION_COUNT]
         case IntValue(i) => i
         case FloatValue(f) => Truncate(f)
         case _ => 0
  }

  function Threshold(opts: ConsolidateOptions): real
  {
    if opts.threshold <= 0.0 then 0.7 else opts.threshold
  }

  /** Important enough and old enough, apart from the promotion count. */
  predicate Ripe(it: Item, opts: ConsolidateOptions, now: Time)
  {
    !(it.importance < Threshold(opts)) && !(opts.minAge > 0 && now - it.createdAt < opts.minAge)
  }

  predicate Eligible(heap: Heap, it: Item, opts: ConsolidateOptions, now: Time)
  {
    Ripe(it, opts, now) && !(PromotionCount(heap, it) >= 1)
  }

  // ----- What one promotion does -----

  /** Store a copy of `it`, with a metadata map of its own, in the episodic tier. */
  function AddClone(w: World, it: Item, now: Time, mint: nat -> string): World
  {
    var id := mint(w.minted + 1);
    var meta := MetaOf(w.heap, it.meta)[PROMOTED_FROM := StringValue(it.id)];
    var clone := Stored(it.(meta := Meta(w.next)), id, now);
    w.(heap := w.heap[w.next := meta], next := w.next + 1, episodic := w.episodic[id := clone], minted := w.minted + 1)
  }

  /** Mark the source as promoted, in the map its stored item refers to. */
  function Stamp(w: World, id: string, now: Time): World
    requires id in w.working
  {
    var it := w.working[id];
    var ref := if it.meta.Meta? then it.meta else Meta(w.next);
    var stamped := MetaOf(w.heap, it.meta)[CONSOLIDATED_AT := TimeValue(now)]
                                          [PROMOTION_COUNT := IntValue(PromotionCount(w.heap, it) + 1)];
    var it' := Changed(it.(meta := ref), now);
    w.(heap := w.heap[ref.addr := stamped],
       next := if it.meta.Meta? then w.next else w.next + 1,
       working := w.working[id := it'])
  }

  // ----- What one call does -----

  /** Which of the backend calls of the `i`-th promotion succeed. */
  datatype Backend = Backend(addOk: nat -> bool, stampOk: nat -> bool)

  datatype Failure = Nothing | AddFailed | StampFailed

  /** The state at return, the sources promoted, and how the call ended. */
  datatype Outcome = Outcome(world: World, promoted: seq<string>, failure: Failure)

  function Promote(w: World, list: seq<Item>, opts: ConsolidateOptions, now: Time,
                   mint: nat -> string, backend: Backend, done: seq<string>): Outcome
    decreases |list|
  {
    if list == [] then Outcome(w, done, Nothing)
    else
      var it := list[0];
      if !Eligible(w.heap, it, opts, now) then Promote(w, list[1..], opts, now, mint, backend, done)
      else if !backend.addOk(|done|) then Outcome(w, done, AddFailed)
      else
        var w' := AddClone(w, it, now, mint);
        if it.id !in w'.working || !backend.stampOk(|done|) then Outcome(w', done, StampFailed)
        else Promote(Stamp(w', it.id, now), list[1..], opts, now, mint, backend, done + [it.id])
  }

  // ----- What is promoted, in the items' own fields -----

  /** Only items above the threshold and of the minimum age are promoted. */
  lemma {:induction false} PromotedMeetTheBar(w: World, list: seq<Item>, opts: ConsolidateOptions, now: Time,
                                              mint: nat -> string, backend: Backend, done: seq<string>, id: string)
    requires id in Promote(w, list, opts, now, mint, backend, done).promoted
    ensures id in done ||
            exists i :: 0 <= i < |list| && list[i].id == id
                        && list[i].importance >= (if opts.threshold <= 0.0 then 0.7 else opts.threshold)
                        && (opts.minAge > 0 ==> now - list[i].createdAt >= opts.minAge)
    decreases |list|
  {
    if list != [] {
      var it, rest := list[0], list[1..];
      if !Eligible(w.heap, it, opts, now) {
        PromotedMeetTheBar(w, rest, opts, now, mint, backend, done, id);
      } else if backend.addOk(|done|) {
        var w' := AddClone(w, it, now, mint);
        if it.id in w'.working && backend.stampOk(|done|) {
          PromotedMeetTheBar(Stamp(w', it.id, now), rest, opts, now, mint, backend, done + [it.id], id);
        }
      }
      assert forall i :: 0 <= i < |rest| ==> rest[i] == list[i + 1];
    }
  }

  lemma PromotedAreQualified(w: World, list: seq<Item>, admits: Item -> bool, opts: ConsolidateOptions, now: Time,
                             mint: nat -> string, backend: Backend)
    requires forall i :: 0 <= i < |list| ==>
               list[i].id in w.working && w.working[list[i].id] == list[i] && admits(list[i])
    ensures forall id :: id in Promote(w, list, opts, now, mint, backend, []).promoted ==>
              && id in w.working && admits(w.working[id])
              && w.working[id].importance >= (if opts.threshold <= 0.0 then 0.7 else opts.threshold)
              && (opts.minAge > 0 ==> now - w.working[id].createdAt >= opts.minAge)
  {
    forall id | id in Promote(w, list, opts, now, mint, backend, []).promoted
      ensures && id in w.working && admits(w.working[id])
              && w.working[id].importance >= (if opts.threshold <= 0.0 then 0.7 else opts.threshold)
              && (opts.minAge > 0 ==> now - w.working[id].createdAt >= opts.minAge)
    {
      PromotedMeetTheBar(w, list, opts, now, mint, backend, [], id);
      hide Promote;
    }
  }

  /** If nothing can be added nothing happens, and the call fails exactly when there is something to promote. */
  lemma {:induction false} NothingAdded(w: World, list: seq<Item>, opts: ConsolidateOptions, now: Time,
                                        mint: nat -> string, backend: Backend, done: seq<string>)
    requires forall n :: !backend.addOk(n)
    ensures var o := Promote(w, list, opts, now, mint, backend, done);
            && o.world == w && o.promoted == done
            && (o.failure != Nothing <==> exists i :: 0 <= i < |list| && Eligible(w.heap, list[i], opts, now))
    decreases |list|
  {
    hide Eligible;
    if list != [] && !Eligible(w.heap, list[0], opts, now) {
      NothingAdded(w, list[1..], opts, now, mint, backend, done);
      assert forall i :: 0 < i < |list| ==> list[i] == list[1..][i - 1];
    }
  }

  /** How a stored promotion count is read: integers as they are, fractions cut off, anything else as none. */
  lemma CountIsRead(heap: Heap, it: Item, addr: nat)
    requires it.meta == Meta(addr) && addr in heap
    ensures "_promotion_count" !in heap[addr] ==> PromotionCount(heap, it) == 0
    ensures "_promotion_count" in heap[addr] ==>
              match heap[addr]["_promotion_count"]
              case IntValue(i) => PromotionCount(heap, it) == i
              case FloatValue(f) =>
                var c := PromotionCount(heap, it) as real;
                if f >= 0.0 then 0.0 <= c <= f < c + 1.0 else c - 1.0 < f <= c <= 0.0
              case _ => PromotionCount(heap, it) == 0
  {
  }

  /** A clone, field by field. */
  lemma CloneInFields(w: World, it: Item, now: Time, mint: nat -> string)
    ensures var w', id := AddClone(w, it, now, mint), mint(w.minted + 1);
            && w'.minted == w.minted + 1 && w'.next == w.next + 1 && w'.working == w.working
            && w'.episodic.Keys == w.episodic.Keys + {id}
            && (forall j :: j in w.episodic && j != id ==> w'.episodic[j] == w.episodic[j])
            && var clone := w'.episodic[id];
            && clone.id == id && clone.content == it.content && clone.tags == it.tags && clone.accessedAt == now
            && clone.importance ==
               (if it.importance < 0.0 then 0.0 else if it.importance > 1.0 then 1.0 else it.importance)
            && clone.createdAt == (if it.createdAt == 0 then now else it.createdAt)
            && clone.meta == Meta(w.next)
            && w'.heap == w.heap[w.next := MetaOf(w.heap, it.meta)["_promoted_from" := StringValue(it.id)]]
  {
  }

  /** A stamp, field by field. */
  lemma StampInFields(w: World, id: string, now: Time)
    requires id in w.working
    ensures var w', it := Stamp(w, id, now), w.working[id];
            && w'.episodic == w.episodic && w'.minted == w.minted && w'.working.Keys == w.working.Keys
            && (forall j :: j in w.working && j != id ==> w'.working[j] == w.working[j])
            && var it' := w'.working[id];
            && it'.id == it.id && it'.content == it.content && it'.tags == it.tags && it'.createdAt == it.createdAt
            && it'.accessedAt == now
            && it'.importance ==
               (if it.importance < 0.0 then 0.0 else if it.importance > 1.0 then 1.0 else it.importance)
            && it'.meta == (if it.meta.Meta? then it.meta else Meta(w.next))
            && MetaOf(w'.heap, it'.meta) ==
               MetaOf(w.heap, it.meta)["_consolidated_at" := TimeValue(now)]
                                      ["_promotion_count" := IntValue(PromotionCount(w.heap, it) + 1)]
  {
  }

  // ----- The operation -----

  /** Adding to a tier that is not wired fails. */
  function Routed(backend: Backend, wired: set<Kind>): Backend
  {
    if Episodic in wired then backend else backend.(addOk := _ => false)
  }

  /** What the paging loop returns of the working tier are admitted items of it. */
  lemma ListedAreStored(all: ItemLists, tiers: Tiers, admits: Item -> bool, rounds: nat, list: seq<Item>)
    requires WellFormedTiers(tiers) && CycledListings(all, Listings(tiers, admits), 200, rounds)
    requires list == if Working in all then all[Working] else []
    ensures forall i :: 0 <= i < |list| ==>
              && Working in tiers && list[i].id in tiers[Working] && tiers[Working][list[i].id] == list[i]
              && admits(list[i])
  {
    var ls := Listings(tiers, admits);
    if Working in all {
      assert Working in ls;
      CopiesOf(all, ls, 200, rounds, Working);
      hide CycledListings, PageCount, Repeat, Copies;
      CopiesAreStored(ls[Working], Copies(ls, 200, rounds, Working), tiers[Working], admits);
    }
  }

  lemma CopiesAreStored(l: seq<Item>, m: nat, items: Items, admits: Item -> bool)
    requires IsListing(l, items, admits)
    ensures forall i :: 0 <= i < |Repeat(l, m)| ==>
              var it := Repeat(l, m)[i]; it.id in items && items[it.id] == it && admits(it)
  {
    forall i | 0 <= i < |Repeat(l, m)|
      ensures Repeat(l, m)[i] in l
    {
      InCopies(l, m, i);
    }
    hide Repeat;
  }

  lemma {:induction false} InCopies(l: seq<Item>, m: nat, i: nat)
    requires i < |Repeat(l, m)|
    ensures Repeat(l, m)[i] in l
  {
    if i < |Repeat(l, m - 1)| {
      InCopies(l, m - 1, i);
    }
  }

  class Engine {
    const wired: set<Kind>
    var heap: Heap
    var next: nat
    var working: Items
    var episodic: Items
    var semantic: Items
    var minted: nat

    constructor (wired: set<Kind>)
      ensures this.wired == wired && State() == World(map[], 0, map[], map[], 0) && semantic == map[]
    {
      this.wired := wired;
      heap, next, working, episodic, semantic, minted := map[], 0, map[], map[], map[], 0;
    }

    ghost function State(): World
      reads this
    {
      World(heap, next, working, episodic, minted)
    }

    function TierOf(kind: Kind): Items
      reads this
    {
      match kind
      case Working => working
      case Episodic => episodic
      case Semantic => semantic
    }

    /** The tiers the manager has. */
    function Wired(): Tiers
      reads this
    {
      map k | k in wired :: TierOf(k)
    }

    /** Working items are listed by the paging loop over the wired tiers, then promoted one by one. */
    method Consolidate(admits: Item -> bool, opts: ConsolidateOptions, now: Time, mint: nat -> string, backend: Backend)
      returns (count: nat, failed: bool, ghost listed: seq<Item>, ghost promoted: seq<string>)
      requires WellFormedTiers(Wired())
      modifies this
      ensures exists out, rounds :: CycledListings(out, Listings(old(Wired()), admits), 200, rounds)
                                    && listed == if Working in out then out[Working] else []
      ensures var o := Promote(old(State()), listed, opts, now, mint, Routed(backend, wired), []);
              State() == o.world && promoted == o.promoted && count == |promoted| && (failed <==> o.failure != Nothing)
      ensures forall id :: id in promoted ==>
                && id in old(working) && admits(old(working)[id])
                && old(working)[id].importance >= (if opts.threshold <= 0.0 then 0.7 else opts.threshold)
                && (opts.minAge > 0 ==> now - old(working)[id].createdAt >= opts.minAge)
      ensures Episodic !in wired ==> count == 0 && State() == old(State())
      ensures semantic == old(semantic)
    {
      var tiers := Wired();
      var all := ListAllPaged(tiers, admits, 200);
      ghost var rounds: nat :| CycledListings(all, Listings(tiers, admits), 200, rounds);
      var list := if Working in all then all[Working] else [];
      ListedAreStored(all, tiers, admits, rounds, list);
      PromotedAreQualified(State(), list, admits, opts, now, mint, Routed(backend, wired));
      if Episodic !in wired {
        NothingAdded(State(), list, opts, now, mint, Routed(backend, wired), []);
      }
      hide CycledListings, Listings, Promote;
      listed := list;
      promoted := Promote(State(), list, opts, now, mint, Routed(backend, wired), []).promoted;
      count, failed := PromoteAll(list, opts, now, mint, Routed(backend, wired));
    }

    method PromoteAll(list: seq<Item>, opts: ConsolidateOptions, now: Time, mint: nat -> string, backend: Backend)
      returns (count: nat, failed: bool)
      modifies this
      ensures var o := Promote(old(State()), list, opts, now, mint, backend, []);
              State() == o.world && count == |o.promoted| && (failed <==> o.failure != Nothing)
      ensures semantic == old(semantic)
    {
      count := 0;
      ghost var done: seq<string> := [];
      ghost var goal := Promote(State(), list, opts, now, mint, backend, []);
      for i := 0 to |list|
        invariant count == |done|
        invariant goal == Promote(State(), list[i..], opts, now, mint, backend, done)
        invariant semantic == old(semantic)
      {
        var it := list[i];
        assert list[i..][0] == it && list[i..][1..] == list[i + 1..];
        if it.importance < (if opts.threshold <= 0.0 then 0.7 else opts.threshold) {
          continue;
        }
        if opts.minAge > 0 && now - it.createdAt < opts.minAge {
          continue;
        }
        if PromotionCount(heap, it) >= 1 {
          continue;
        }
        if !backend.addOk(count) {
          return count, true;
        }
        CloneInto(it, now, mint);
        if it.id !in working || !backend.stampOk(count) {
          return count, true;
        }
        StampSource(it.id, now);
        count := count + 1;
        done := done + [it.id];
      }
      failed := false;
    }

    method CloneInto(it: Item, now: Time, mint: nat -> string)
      modifies this
      ensures State() == AddClone(old(State()), it, now, mint) && semantic == old(semantic)
    {
      var clone := it;
      var copy := MetaOf(heap, it.meta);
      heap := heap[next := copy[PROMOTED_FROM := StringValue(it.id)]];
      clone := clone.(meta := Meta(next));
      next := next + 1;
      minted := minted + 1;
      clone := clone.(id := mint(minted));
      if clone.createdAt == ZERO_TIME {
        clone := clone.(createdAt := now);
      }
      clone := clone.(accessedAt := now, importance := Clamp(clone.importance));
      episodic := episodic[clone.id := clone];
    }

    method StampSource(id: string, now: Time)
      requires id in working
      modifies this
      ensures State() == Stamp(old(State()), id, now) && semantic == old(semantic)
    {
      var it := working[id];
      ghost var before := heap;
      if it.meta.NilMeta? {
        heap := heap[next := map[]];
        it := it.(meta := Meta(next));
        next := next + 1;
      }
      var m := MetaOf(heap, it.meta);
      m := m[CONSOLIDATED_AT := TimeValue(now)];
      m := m[PROMOTION_COUNT := IntValue(PromotionCount(heap, it) + 1)];
      heap := heap[it.meta.addr := m];
      it := it.(accessedAt := now, importance := Clamp(it.importance));
      working := working[id := it];
    }
  }
}
