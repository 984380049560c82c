/** Snapshots of a store (memory/engine_persistence.go). */
module Persistence {
  import opened Types
  import opened Ordering
  import opened ScoredStore
  import VectorIndex

  /** The format version, a constant of the contract module; only its equality is used. */
  const SNAPSHOT_VERSION: int := 1

  datatype Entry = Entry(item: Item, vector: Option<Vector>)

  datatype Snapshot = Snapshot(version: int, kind: Kind, entries: seq<Entry>)

  datatype Mode = Replace | Merge | Upsert | UnknownMode

  datatype Report = Report(loaded: nat, skipped: nat, replaced: nat, errors: nat)

  // ----- Export -----

  function EntryOf(items: Items, vectors: map<string, Vector>, id: string): Entry
    requires id in items
  {
    Entry(items[id], if id in vectors then Some(vectors[id]) else None)
  }

  /** Oldest first, then by ascending ID. */
  predicate EntryPrecedes(a: Entry, b: Entry)
  {
    a.item.createdAt < b.item.createdAt
    || (a.item.createdAt == b.item.createdAt && StringLess(a.item.id, b.item.id))
  }

  lemma EntryOrder()
    ensures StrictWeakOrder(EntryPrecedes)
  {
    StringOrder();
  }

  /** The export of a store: each item once, with its vector, in a fixed order. */
  ghost predicate IsExport(entries: seq<Entry>, items: Items, vectors: map<string, Vector>)
  {
    && StrictlySorted(entries, EntryPrecedes)
    && forall e :: e in entries <==> e.item.id in items && e == EntryOf(items, vectors, e.item.id)
  }

  /** The order of an export does not depend on the order in which the map is walked. */
  lemma ExportUnique(a: seq<Entry>, b: seq<Entry>, items: Items, vectors: map<string, Vector>)
    requires IsExport(a, items, vectors) && IsExport(b, items, vectors)
    ensures a == b
  {
    EntryOrder();
    StrictlySortedUnique(a, b, EntryPrecedes);
  }

  lemma ExportInFields(entries: seq<Entry>, items: Items, vectors: map<string, Vector>)
    requires WellFormed(items) && IsExport(entries, items, vectors)
    ensures forall i, j :: 0 <= i < j < |entries| ==>
              var a, b := entries[i].item, entries[j].item;
              a.createdAt < b.createdAt || (a.createdAt == b.createdAt && StringLess(a.id, b.id))
    ensures forall id :: id in items ==>
              Entry(items[id], if id in vectors then Some(vectors[id]) else None) in entries
    ensures forall i :: 0 <= i < |entries| ==>
              var it := entries[i].item; it.id in items && items[it.id] == it
  {
    forall i, j | 0 <= i < j < |entries|
      ensures var a, b := entries[i].item, entries[j].item;
              a.createdAt < b.createdAt || (a.createdAt == b.createdAt && StringLess(a.id, b.id))
    {
      assert EntryPrecedes(entries[i], entries[j]);
    }
    forall i | 0 <= i < |entries|
      ensures var it := entries[i].item; it.id in items && items[it.id] == it
    {
      assert entries[i] in entries;
    }
  }

  method Export(store: Store, kind: Kind) returns (snap: Snapshot)
    requires store.Valid()
    ensures snap.version == SNAPSHOT_VERSION && snap.kind == kind
    ensures IsExport(snap.entries, store.items, store.vectors)
    ensures forall i, j :: 0 <= i < j < |snap.entries| ==>
              var a, b := snap.entries[i].item, snap.entries[j].item;
              a.createdAt < b.createdAt || (a.createdAt == b.createdAt && StringLess(a.id, b.id))
    ensures forall id :: id in store.items ==>
              Entry(store.items[id], if id in store.vectors then Some(store.vectors[id]) else None) in snap.entries
    ensures forall i :: 0 <= i < |snap.entries| ==>
              var it := snap.entries[i].item; it.id in store.items && store.items[it.id] == it
  {
    var entries := CollectEntries(store.items, store.vectors);
    assert StrictWeakOrder(EntryPrecedes) by { EntryOrder(); }
    var sorted := Sort(entries, EntryPrecedes);
    SortedIsExport(entries, sorted, store.items, store.vectors);
    ExportInFields(sorted, store.items, store.vectors);
    hide IsExport;
    snap := Snapshot(SNAPSHOT_VERSION, kind, sorted);
  }

  method CollectEntries(items: Items, vectors: map<string, Vector>) returns (out: seq<Entry>)
    requires WellFormed(items)
    ensures Distinct(out)
    ensures forall e :: e in out <==> e.item.id in items && e == EntryOf(items, vectors, e.item.id)
  {
    out := [];
    var todo := items.Keys;
    while todo != {}
      invariant todo <= items.Keys
      invariant Distinct(out)
      invariant forall e :: e in out <==>
                  e.item.id in items && e.item.id !in todo && e == EntryOf(items, vectors, e.item.id)
      decreases todo
    {
      var id :| id in todo;
      out := out + [EntryOf(items, vectors, id)];
      todo := todo - {id};
    }
  }

  lemma SortedIsExport(c: seq<Entry>, s: seq<Entry>, items: Items, vectors: map<string, Vector>)
    requires WellFormed(items) && Distinct(c) && Permutation(s, c) && Sorted(s, EntryPrecedes)
    requires forall e :: e in c <==> e.item.id in items && e == EntryOf(items, vectors, e.item.id)
    ensures IsExport(s, items, vectors)
  {
    SameElements(s, c);
    DistinctPermutation(c, s);
    forall i, j | 0 <= i < j < |s|
      ensures EntryPrecedes(s[i], s[j])
    {
      assert s[i] in s && s[j] in s;
      StringTrichotomy(s[i].item.id, s[j].item.id);
    }
  }

  // ----- Import -----

  datatype Progress = Progress(items: Items, vectors: map<string, Vector>, report: Report)

  function SetVector(vectors: map<string, Vector>, id: string, v: Option<Vector>): map<string, Vector>
  {
    if v.Some? then vectors[id := v.value] else vectors
  }

  function ImportOne(p: Progress, e: Entry, mode: Mode): Progress
  {
    var id, rpt := e.item.id, p.report;
    if id == "" then p.(report := rpt.(errors := rpt.errors + 1))
    else
      var items := p.items[id := e.item];
      match mode
      case Merge =>
        if id in p.items then p.(report := rpt.(skipped := rpt.skipped + 1))
        else Progress(items, SetVector(p.vectors, id, e.vector), rpt.(loaded := rpt.loaded + 1))
      case Upsert =>
        var vectors := if e.vector.Some? then p.vectors[id := e.vector.value] else p.vectors - {id};
        if id in p.items then Progress(items, vectors, rpt.(replaced := rpt.replaced + 1))
        else Progress(items, vectors, rpt.(loaded := rpt.loaded + 1))
      case _ =>
        Progress(items, SetVector(p.vectors, id, e.vector), rpt.(loaded := rpt.loaded + 1))
  }

  function ImportEntries(p: Progress, entries: seq<Entry>, mode: Mode): Progress
  {
    if entries == [] then p
    else ImportOne(ImportEntries(p, entries[..|entries| - 1], mode), entries[|entries| - 1], mode)
  }

  function Begin(items: Items, vectors: map<string, Vector>, mode: Mode): Progress
  {
    var zero := Report(0, 0, 0, 0);
    if mode == Replace then Progress(map[], map[], zero) else Progress(items, vectors, zero)
  }

  ghost predicate HasNamed(entries: seq<Entry>)
  {
    exists e :: e in entries && e.item.id != ""
  }

  // ----- What an import leaves behind, entry by entry -----

  function VectorAt(vectors: map<string, Vector>, id: string): Option<Vector>
  {
    if id in vectors then Some(vectors[id]) else None
  }

  ghost predicate Named(entries: seq<Entry>, id: string)
  {
    id != "" && exists i :: 0 <= i < |entries| && entries[i].item.id == id
  }

  /** No later entry has the same ID. */
  ghost predicate LastOfItsId(entries: seq<Entry>, i: nat)
    requires i < |entries|
  {
    entries[i].item.id != "" && forall j :: i < j < |entries| ==> entries[j].item.id != entries[i].item.id
  }

  ghost predicate FirstOfItsId(entries: seq<Entry>, i: nat)
    requires i < |entries|
  {
    entries[i].item.id != "" && forall j :: 0 <= j < i ==> entries[j].item.id != entries[i].item.id
  }

  /** The entry has a vector, and no later entry with the same ID has one. */
  ghost predicate LastVectorOfItsId(entries: seq<Entry>, i: nat)
    requires i < |entries|
  {
    && entries[i].item.id != "" && entries[i].vector.Some?
    && forall j :: i < j < |entries| && entries[j].item.id == entries[i].item.id ==> entries[j].vector.None?
  }

  predicate Unchanged(p: Progress, q: Progress, id: string)
  {
    && (id in q.items <==> id in p.items) && (id in p.items ==> q.items[id] == p.items[id])
    && VectorAt(q.vectors, id) == VectorAt(p.vectors, id)
  }

  /** Each ID of the snapshot holds the item and the vector of its last entry; the others are as before. */
  ghost predicate Upserted(p: Progress, entries: seq<Entry>, q: Progress)
  {
    && (forall id :: !Named(entries, id) ==> Unchanged(p, q, id))
    && (forall i :: 0 <= i < |entries| && LastOfItsId(entries, i) ==>
          && entries[i].item.id in q.items && q.items[entries[i].item.id] == entries[i].item
          && VectorAt(q.vectors, entries[i].item.id) == entries[i].vector)
  }

  /** The IDs are those of the snapshot; each holds its last entry's item, and the last vector given for it. */
  ghost predicate Replaced(entries: seq<Entry>, q: Progress)
  {
    && (forall id :: id in q.items <==> Named(entries, id))
    && (forall i :: 0 <= i < |entries| && LastOfItsId(entries, i) ==> q.items[entries[i].item.id] == entries[i].item)
    && (forall i :: 0 <= i < |entries| && LastVectorOfItsId(entries, i) ==>
          VectorAt(q.vectors, entries[i].item.id) == entries[i].vector)
    && (forall id :: id in q.vectors ==>
          exists i :: 0 <= i < |entries| && entries[i].item.id == id && LastVectorOfItsId(entries, i))
  }

  /** What was there is as before; an ID that was not holds its first entry. */
  ghost predicate Merged(p: Progress, entries: seq<Entry>, q: Progress)
  {
    && (forall id :: id in p.items || !Named(entries, id) ==> Unchanged(p, q, id))
    && (forall i :: 0 <= i < |entries| && FirstOfItsId(entries, i) && entries[i].item.id !in p.items ==>
          && entries[i].item.id in q.items && q.items[entries[i].item.id] == entries[i].item
          && VectorAt(q.vectors, entries[i].item.id) ==
             if entries[i].vector.Some? then entries[i].vector else VectorAt(p.vectors, entries[i].item.id))
  }

  ghost function NewIds(entries: seq<Entry>, items: Items): set<string>
  {
    set i | 0 <= i < |entries| && entries[i].item.id != "" && entries[i].item.id !in items :: entries[i].item.id
  }

  ghost function Unnamed(entries: seq<Entry>): set<int>
  {
    set i | 0 <= i < |entries| && entries[i].item.id == ""
  }

  /** Entries without ID are errors; new IDs are loaded, and the rest is skipped or replaced, as the mode says. */
  ghost predicate Reported(r: Report, entries: seq<Entry>, items: Items, mode: Mode)
  {
    && r.errors == |Unnamed(entries)|
    && r.loaded + r.skipped + r.replaced + r.errors == |entries|
    && match mode
       case Merge => r.loaded == |NewIds(entries, items)| && r.replaced == 0
       case Upsert => r.loaded == |NewIds(entries, items)| && r.skipped == 0
       case Replace => r.skipped == 0 && r.replaced == 0
       case UnknownMode => true
  }

  lemma OtherIdUntouched(p: Progress, e: Entry, mode: Mode, id: string)
    requires e.item.id == "" || e.item.id != id
    ensures Unchanged(p, ImportOne(p, e, mode), id)
  {
  }

  lemma {:induction false} UnnamedUntouched(p: Progress, entries: seq<Entry>, mode: Mode, id: string)
    requires !Named(entries, id)
    ensures Unchanged(p, ImportEntries(p, entries, mode), id)
  {
    if entries != [] {
      var n := |entries| - 1;
      assert forall i :: 0 <= i < n ==> entries[..n][i] == entries[i];
      UnnamedUntouched(p, entries[..n], mode, id);
      OtherIdUntouched(ImportEntries(p, entries[..n], mode), entries[n], mode, id);
    }
  }

  lemma {:induction false} LastEntryStored(p: Progress, entries: seq<Entry>, mode: Mode, i: nat)
    requires i < |entries| && LastOfItsId(entries, i) && (mode == Upsert || mode == Replace)
    ensures var q := ImportEntries(p, entries, mode);
            && entries[i].item.id in q.items && q.items[entries[i].item.id] == entries[i].item
            && (mode == Upsert ==> VectorAt(q.vectors, entries[i].item.id) == entries[i].vector)
  {
    var n := |entries| - 1;
    if i < n {
      LastEntryStored(p, entries[..n], mode, i);
      OtherIdUntouched(ImportEntries(p, entries[..n], mode), entries[n], mode, entries[i].item.id);
    }
  }

  lemma {:induction false} LastVectorStored(p: Progress, entries: seq<Entry>, i: nat)
    requires i < |entries| && LastVectorOfItsId(entries, i)
    ensures VectorAt(ImportEntries(p, entries, Replace).vectors, entries[i].item.id) == entries[i].vector
  {
    var n := |entries| - 1;
    if i < n {
      LastVectorStored(p, entries[..n], i);
    }
  }

  lemma {:induction false} VectorsWereGiven(entries: seq<Entry>, p: Progress, id: string)
    requires id !in p.vectors && id in ImportEntries(p, entries, Replace).vectors
    ensures exists i :: 0 <= i < |entries| && entries[i].item.id == id && LastVectorOfItsId(entries, i)
  {
    var n := |entries| - 1;
    if entries[n].item.id == id && entries[n].vector.Some? {
      assert id != "" ==> LastVectorOfItsId(entries, n);
    }
    if !(entries[n].item.id == id && id != "" && entries[n].vector.Some?) {
      VectorsWereGiven(entries[..n], p, id);
      var i :| 0 <= i < n && entries[..n][i].item.id == id && LastVectorOfItsId(entries[..n], i);
      assert LastVectorOfItsId(entries, i);
    }
  }

  lemma {:induction false} StoredIds(p: Progress, entries: seq<Entry>, mode: Mode, id: string)
    ensures id in ImportEntries(p, entries, mode).items <==> id in p.items || Named(entries, id)
  {
    if entries != [] {
      var n := |entries| - 1;
      StoredIds(p, entries[..n], mode, id);
      NamedNext(entries, id);
      hide Named;
    }
  }

  lemma NamedNext(entries: seq<Entry>, id: string)
    requires entries != []
    ensures var n := |entries| - 1;
            Named(entries, id) <==> Named(entries[..n], id) || (id != "" && entries[n].item.id == id)
  {
    var n := |entries| - 1;
    assert forall i :: 0 <= i < n ==> entries[..n][i] == entries[i];
  }

  lemma {:induction false} MergeKeeps(p: Progress, entries: seq<Entry>, id: string)
    requires id in p.items
    ensures Unchanged(p, ImportEntries(p, entries, Merge), id)
  {
    if entries != [] {
      MergeKeeps(p, entries[..|entries| - 1], id);
    }
  }

  lemma {:induction false} FirstEntryStored(p: Progress, entries: seq<Entry>, i: nat)
    requires i < |entries| && FirstOfItsId(entries, i) && entries[i].item.id !in p.items
    ensures var q := ImportEntries(p, entries, Merge);
            && entries[i].item.id in q.items && q.items[entries[i].item.id] == entries[i].item
            && VectorAt(q.vectors, entries[i].item.id) ==
               if entries[i].vector.Some? then entries[i].vector else VectorAt(p.vectors, entries[i].item.id)
  {
    var n := |entries| - 1;
    if i < n {
      FirstEntryStored(p, entries[..n], i);
    } else {
      UnnamedUntouched(p, entries[..n], Merge, entries[n].item.id);
    }
  }

  lemma {:induction false} Counters(p: Progress, entries: seq<Entry>, mode: Mode)
    requires p.report == Report(0, 0, 0, 0)
    ensures Reported(ImportEntries(p, entries, mode).report, entries, p.items, mode)
  {
    if entries == [] {
      assert Unnamed(entries) == {} && NewIds(entries, p.items) == {};
    } else {
      var n := |entries| - 1;
      var init := entries[..n];
      assert ImportEntries(p, entries, mode) == ImportOne(ImportEntries(p, init, mode), entries[n], mode);
      hide *;
      Counters(p, init, mode);
      StoredIds(p, init, mode, entries[n].item.id);
      NewIdsAre(init, p.items, entries[n].item.id);
      NextUnnamed(entries);
      NextNewIds(entries, p.items);
      NextReport(ImportEntries(p, init, mode), entries, p.items, mode);
    }
  }

  lemma NextReport(q: Progress, entries: seq<Entry>, items: Items, mode: Mode)
    requires entries != [] && Reported(q.report, entries[..|entries| - 1], items, mode)
    requires var n, id := |entries| - 1, entries[|entries| - 1].item.id;
             && (id != "" ==> (id in q.items <==> id in items || id in NewIds(entries[..n], items)))
             && |Unnamed(entries)| == |Unnamed(entries[..n])| + (if id == "" then 1 else 0)
             && |NewIds(entries, items)| == |NewIds(entries[..n], items)|
                + (if id != "" && id !in items && id !in NewIds(entries[..n], items) then 1 else 0)
    ensures Reported(ImportOne(q, entries[|entries| - 1], mode).report, entries, items, mode)
  {
    hide NewIds, Unnamed;
  }

  lemma NewIdsAre(entries: seq<Entry>, items: Items, id: string)
    ensures id in NewIds(entries, items) <==> id !in items && Named(entries, id)
  {
  }

  lemma NextNewIds(entries: seq<Entry>, items: Items)
    requires entries != []
    ensures var n, id := |entries| - 1, entries[|entries| - 1].item.id;
            |NewIds(entries, items)| == |NewIds(entries[..n], items)|
            + (if id != "" && id !in items && id !in NewIds(entries[..n], items) then 1 else 0)
  {
    var n, last := |entries| - 1, entries[|entries| - 1].item.id;
    var before, here := NewIds(entries[..n], items), NewIds(entries, items);
    hide *;
    forall id
      ensures id in here <==> id in before || (id == last && id != "" && id !in items)
    {
      NewIdsAre(entries, items, id);
      NewIdsAre(entries[..n], items, id);
      NamedNext(entries, id);
    }
    assert here == before + if last != "" && last !in items && last !in before then {last} else {};
  }

  lemma NextUnnamed(entries: seq<Entry>)
    requires entries != []
    ensures var n := |entries| - 1;
            |Unnamed(entries)| == |Unnamed(entries[..n])| + (if entries[n].item.id == "" then 1 else 0)
  {
    var n := |entries| - 1;
    var before, here := Unnamed(entries[..n]), Unnamed(entries);
    assert n !in before;
    assert forall i :: i in here <==> i in before || (i == n && entries[n].item.id == "");
    hide Unnamed;
    assert here == before + if entries[n].item.id == "" then {n} else {};
  }

  lemma ImportSatisfies(items: Items, vectors: map<string, Vector>, entries: seq<Entry>, mode: Mode)
    ensures var p := Progress(items, vectors, Report(0, 0, 0, 0));
            var q := ImportEntries(Begin(items, vectors, mode), entries, mode);
            && (mode == Upsert ==> Upserted(p, entries, q))
            && (mode == Replace ==> Replaced(entries, q))
            && (mode == Merge ==> Merged(p, entries, q))
            && Reported(q.report, entries, items, mode)
  {
    var p, q := Begin(items, vectors, mode), ImportEntries(Begin(items, vectors, mode), entries, mode);
    Counters(p, entries, mode);
    hide ImportEntries, Named, Unchanged;
    forall id
      ensures id in q.items <==> id in p.items || Named(entries, id)
      ensures !Named(entries, id) ==> Unchanged(p, q, id)
    {
      StoredIds(p, entries, mode, id);
      if !Named(entries, id) {
        UnnamedUntouched(p, entries, mode, id);
      }
    }
    match mode
    case Upsert =>
      forall i | 0 <= i < |entries| && LastOfItsId(entries, i)
        ensures entries[i].item.id in q.items && q.items[entries[i].item.id] == entries[i].item
        ensures VectorAt(q.vectors, entries[i].item.id) == entries[i].vector
      {
        LastEntryStored(p, entries, mode, i);
      }
    case Replace => ReplaceSatisfies(entries, p);
    case Merge => MergeSatisfies(entries, p);
    case UnknownMode =>
  }

  lemma ReplaceSatisfies(entries: seq<Entry>, p: Progress)
    requires p.items == map[] && p.vectors == map[]
    ensures Replaced(entries, ImportEntries(p, entries, Replace))
  {
    var q := ImportEntries(p, entries, Replace);
    hide ImportEntries, Named;
    forall id
      ensures id in q.items <==> Named(entries, id)
    {
      StoredIds(p, entries, Replace, id);
    }
    forall i | 0 <= i < |entries| && LastOfItsId(entries, i)
      ensures entries[i].item.id in q.items && q.items[entries[i].item.id] == entries[i].item
    {
      LastEntryStored(p, entries, Replace, i);
    }
    forall i | 0 <= i < |entries| && LastVectorOfItsId(entries, i)
      ensures VectorAt(q.vectors, entries[i].item.id) == entries[i].vector
    {
      LastVectorStored(p, entries, i);
    }
    forall id | id in q.vectors
      ensures exists i :: 0 <= i < |entries| && entries[i].item.id == id && LastVectorOfItsId(entries, i)
    {
      VectorsWereGiven(entries, p, id);
    }
  }

  lemma MergeSatisfies(entries: seq<Entry>, p: Progress)
    ensures Merged(p, entries, ImportEntries(p, entries, Merge))
  {
    var q := ImportEntries(p, entries, Merge);
    hide ImportEntries, Named, Unchanged;
    forall id | id in p.items || !Named(entries, id)
      ensures Unchanged(p, q, id)
    {
      if id in p.items {
        MergeKeeps(p, entries, id);
      } else {
        UnnamedUntouched(p, entries, Merge, id);
      }
    }
    forall i | 0 <= i < |entries| && FirstOfItsId(entries, i) && entries[i].item.id !in p.items
      ensures entries[i].item.id in q.items && q.items[entries[i].item.id] == entries[i].item
      ensures VectorAt(q.vectors, entries[i].item.id) ==
              if entries[i].vector.Some? then entries[i].vector else VectorAt(p.vectors, entries[i].item.id)
    {
      FirstEntryStored(p, entries, i);
    }
  }

  // ----- The operation -----

  method Import(store: Store, kind: Kind, snap: Snapshot, mode: Mode) returns (r: Result<Report>)
    modifies store
    ensures r.Err? <==> snap.kind != kind || snap.version != SNAPSHOT_VERSION
                        || (mode == UnknownMode && HasNamed(snap.entries))
    ensures r.Err? ==> store.items == old(store.items) && store.vectors == old(store.vectors)
    ensures r.Ok? ==> var p := ImportEntries(Begin(old(store.items), old(store.vectors), mode), snap.entries, mode);
                      store.items == p.items && store.vectors == p.vectors && r.value == p.report
    ensures r.Ok? ==> var p := Progress(old(store.items), old(store.vectors), Report(0, 0, 0, 0));
                      var q := Progress(store.items, store.vectors, r.value);
                      && (mode == Upsert ==> Upserted(p, snap.entries, q))
                      && (mode == Replace ==> Replaced(snap.entries, q))
                      && (mode == Merge ==> Merged(p, snap.entries, q))
                      && Reported(r.value, snap.entries, old(store.items), mode)
    ensures store.counter == old(store.counter)
    ensures old(store.Valid()) || (r.Ok? && mode == Replace) ==> store.Valid()
  {
    if snap.kind != kind {
      return Err("kind mismatch");
    }
    if snap.version != SNAPSHOT_VERSION {
      return Err("version mismatch");
    }
    var p := Begin(store.items, store.vectors, mode);
    ghost var valid := store.Valid();
    var r' := ImportAllEntries(p, snap.entries, mode);
    if r'.Err? {
      return Err(r'.error);
    }
    if valid || mode == Replace {
      ImportKeepsWellFormed(p, snap.entries, mode);
    }
    ImportSatisfies(store.items, store.vectors, snap.entries, mode);
    hide Upserted, Replaced, Merged, Reported;
    store.items, store.vectors := r'.value.items, r'.value.vectors;
    r := Ok(r'.value.report);
  }

  /** Entry by entry; an unknown mode is noticed at the first entry with an ID. */
  method ImportAllEntries(start: Progress, entries: seq<Entry>, mode: Mode) returns (r: Result<Progress>)
    ensures r.Err? <==> mode == UnknownMode && HasNamed(entries)
    ensures r.Ok? ==> r.value == ImportEntries(start, entries, mode)
  {
    var p := start;
    for i := 0 to |entries|
      invariant p == ImportEntries(start, entries[..i], mode)
      invariant mode == UnknownMode ==> !HasNamed(entries[..i])
    {
      var e := entries[i];
      assert entries[..i + 1][..i] == entries[..i];
      assert entries[..i + 1] == entries[..i] + [e];
      if e.item.id != "" && mode == UnknownMode {
        assert e in entries;
        return Err("unknown import mode");
      }
      p := ImportOne(p, e, mode);
    }
    assert entries[..|entries|] == entries;
    r := Ok(p);
  }

  lemma {:induction false} ImportKeepsWellFormed(p: Progress, entries: seq<Entry>, mode: Mode)
    requires WellFormed(p.items)
    ensures WellFormed(ImportEntries(p, entries, mode).items)
  {
    if entries != [] {
      ImportKeepsWellFormed(p, entries[..|entries| - 1], mode);
    }
  }

  // ----- Round trip and algebra -----

  function Total(r: Report): nat
  {
    r.loaded + r.skipped + r.replaced + r.errors
  }

  /** Every entry is counted exactly once. */
  lemma {:induction false} EveryEntryCounted(p: Progress, entries: seq<Entry>, mode: Mode)
    ensures Total(ImportEntries(p, entries, mode).report) == Total(p.report) + |entries|
  {
    if entries != [] {
      EveryEntryCounted(p, entries[..|entries| - 1], mode);
    }
  }

  ghost predicate DistinctIds(entries: seq<Entry>)
  {
    && (forall i, j :: 0 <= i < j < |entries| ==> entries[i].item.id != entries[j].item.id)
    && (forall i :: 0 <= i < |entries| ==> entries[i].item.id != "")
  }

  function ItemsIn(entries: seq<Entry>): Items
  {
    if entries == [] then map[]
    else var e := entries[|entries| - 1]; ItemsIn(entries[..|entries| - 1])[e.item.id := e.item]
  }

  function VectorsIn(entries: seq<Entry>): map<string, Vector>
  {
    if entries == [] then map[]
    else var e := entries[|entries| - 1]; SetVector(VectorsIn(entries[..|entries| - 1]), e.item.id, e.vector)
  }

  lemma {:induction false} KeysIn(entries: seq<Entry>)
    ensures forall id :: id in ItemsIn(entries) <==> exists i :: 0 <= i < |entries| && entries[i].item.id == id
    ensures VectorsIn(entries).Keys <= ItemsIn(entries).Keys
  {
    if entries != [] {
      var init, last := entries[..|entries| - 1], entries[|entries| - 1];
      KeysIn(init);
      forall id
        ensures id in ItemsIn(entries) <==> exists i :: 0 <= i < |entries| && entries[i].item.id == id
      {
        if i :| 0 <= i < |entries| && entries[i].item.id == id {
          assert i < |init| ==> init[i].item.id == id;
        }
        if i :| 0 <= i < |init| && init[i].item.id == id {
          assert entries[i].item.id == id;
        }
        assert id == last.item.id ==> entries[|entries| - 1].item.id == id;
      }
    }
  }

  lemma {:induction false} LookupIn(entries: seq<Entry>, i: nat)
    requires DistinctIds(entries) && i < |entries|
    ensures var e := entries[i];
            && e.item.id in ItemsIn(entries) && ItemsIn(entries)[e.item.id] == e.item
            && (e.item.id in VectorsIn(entries) <==> e.vector.Some?)
            && (e.vector.Some? ==> VectorsIn(entries)[e.item.id] == e.vector.value)
  {
    var init := entries[..|entries| - 1];
    if i < |init| {
      LookupIn(init, i);
    } else {
      NotYetIn(entries);
    }
  }

  lemma NotYetIn(entries: seq<Entry>)
    requires DistinctIds(entries) && entries != []
    ensures entries[|entries| - 1].item.id !in ItemsIn(entries[..|entries| - 1])
    ensures entries[|entries| - 1].item.id !in VectorsIn(entries[..|entries| - 1])
  {
    KeysIn(entries[..|entries| - 1]);
  }

  /** Distinct entries imported over an empty store: all three modes store exactly them and report the same. */
  lemma {:induction false} ModesAgreeOnEmpty(entries: seq<Entry>, mode: Mode)
    requires DistinctIds(entries) && mode != UnknownMode
    ensures ImportEntries(Begin(map[], map[], mode), entries, mode)
            == Progress(ItemsIn(entries), VectorsIn(entries), Report(|entries|, 0, 0, 0))
  {
    if entries != [] {
      var init, last := entries[..|entries| - 1], entries[|entries| - 1];
      ModesAgreeOnEmpty(init, mode);
      NotYetIn(entries);
      assert VectorsIn(init) - {last.item.id} == VectorsIn(init);
    }
  }

  lemma ExportHasDistinctIds(entries: seq<Entry>, items: Items, vectors: map<string, Vector>)
    requires WellFormed(items) && IsExport(entries, items, vectors)
    ensures DistinctIds(entries)
  {
    forall i, j | 0 <= i < j < |entries|
      ensures entries[i].item.id != entries[j].item.id
    {
      assert entries[i] in entries && entries[j] in entries;
      StringTrichotomy(entries[i].item.id, entries[i].item.id);
    }
    forall i | 0 <= i < |entries|
      ensures entries[i].item.id != ""
    {
      assert entries[i] in entries;
    }
  }

  /** Replace-importing an export, over any store, restores the items and the vectors of those items. */
  lemma ExportImportRoundTrip(entries: seq<Entry>, items: Items, vectors: map<string, Vector>,
                              other: Items, otherVectors: map<string, Vector>)
    requires WellFormed(items) && IsExport(entries, items, vectors)
    ensures ImportEntries(Begin(other, otherVectors, Replace), entries, Replace)
            == Progress(items, map id | id in vectors && id in items :: vectors[id], Report(|entries|, 0, 0, 0))
  {
    ExportHasDistinctIds(entries, items, vectors);
    ModesAgreeOnEmpty(entries, Replace);
    RestoredItems(entries, items, vectors);
    RestoredVectors(entries, items, vectors);
  }

  lemma RestoredItems(entries: seq<Entry>, items: Items, vectors: map<string, Vector>)
    requires WellFormed(items) && IsExport(entries, items, vectors) && DistinctIds(entries)
    ensures ItemsIn(entries) == items
  {
    KeysIn(entries);
    forall id | id in items
      ensures id in ItemsIn(entries) && ItemsIn(entries)[id] == items[id]
    {
      var i := PlaceOf(entries, items, vectors, id);
      LookupIn(entries, i);
    }
    forall id | id in ItemsIn(entries)
      ensures id in items
    {
      var i :| 0 <= i < |entries| && entries[i].item.id == id;
      assert entries[i] in entries;
    }
  }

  lemma RestoredVectors(entries: seq<Entry>, items: Items, vectors: map<string, Vector>)
    requires WellFormed(items) && IsExport(entries, items, vectors) && DistinctIds(entries)
    requires ItemsIn(entries) == items
    ensures VectorsIn(entries) == map id | id in vectors && id in items :: vectors[id]
  {
    KeysIn(entries);
    forall id | id in items
      ensures id in VectorsIn(entries) <==> id in vectors
      ensures id in vectors ==> VectorsIn(entries)[id] == vectors[id]
    {
      var i := PlaceOf(entries, items, vectors, id);
      LookupIn(entries, i);
    }
  }

  lemma PlaceOf(entries: seq<Entry>, items: Items, vectors: map<string, Vector>, id: string) returns (i: nat)
    requires WellFormed(items) && IsExport(entries, items, vectors) && id in items
    ensures i < |entries| && entries[i] == EntryOf(items, vectors, id)
  {
    assert EntryOf(items, vectors, id) in entries;
    i :| 0 <= i < |entries| && entries[i] == EntryOf(items, vectors, id);
  }

  ghost predicate AllPresent(entries: seq<Entry>, items: Items)
  {
    forall i :: 0 <= i < |entries| && entries[i].item.id != "" ==> entries[i].item.id in items
  }

  lemma {:induction false} MergeMakesPresent(p: Progress, entries: seq<Entry>)
    ensures AllPresent(entries, ImportEntries(p, entries, Merge).items)
    ensures p.items.Keys <= ImportEntries(p, entries, Merge).items.Keys
  {
    if entries != [] {
      var init := entries[..|entries| - 1];
      MergeMakesPresent(p, init);
      forall i | 0 <= i < |entries| && entries[i].item.id != ""
        ensures entries[i].item.id in ImportEntries(p, entries, Merge).items
      {
        assert i < |init| ==> init[i] == entries[i];
      }
    }
  }

  lemma {:induction false} MergeOfPresent(p: Progress, entries: seq<Entry>)
    requires AllPresent(entries, p.items)
    ensures var p' := ImportEntries(p, entries, Merge);
            && p'.items == p.items && p'.vectors == p.vectors
            && p'.report.loaded == p.report.loaded && p'.report.replaced == p.report.replaced
  {
    if entries != [] {
      assert AllPresent(entries[..|entries| - 1], p.items);
      MergeOfPresent(p, entries[..|entries| - 1]);
    }
  }

  /** Merging the same snapshot again loads nothing and changes nothing. */
  lemma SecondMergeIsIdle(items: Items, vectors: map<string, Vector>, entries: seq<Entry>)
    ensures var once := ImportEntries(Begin(items, vectors, Merge), entries, Merge);
            var twice := ImportEntries(Begin(once.items, once.vectors, Merge), entries, Merge);
            twice.items == once.items && twice.vectors == once.vectors && twice.report.loaded == 0
  {
    var once := ImportEntries(Begin(items, vectors, Merge), entries, Merge);
    MergeMakesPresent(Begin(items, vectors, Merge), entries);
    MergeOfPresent(Begin(once.items, once.vectors, Merge), entries);
  }

  // ----- Imports as one step of the store -----

  function StepMode(mode: Mode): VectorIndex.ImportMode
  {
    match mode
    case Merge => VectorIndex.KeepExisting
    case Upsert => VectorIndex.Overwrite
    case _ => VectorIndex.ReplaceAll
  }

  /** Adding one entry to a map of new entries. */
  lemma MergeOneMore<T>(base: map<string, T>, more: map<string, T>, taken: set<string>, id: string, x: T)
    requires id !in more
    ensures id in taken ==> base + (more[id := x] - taken) == base + (more - taken)
    ensures id !in taken ==> base + (more[id := x] - taken) == (base + (more - taken))[id := x]
  {
  }

  lemma OverwriteOneMore(base: map<string, Vector>, ids: set<string>, more: map<string, Vector>, id: string,
                         v: Option<Vector>)
    requires id !in more && id !in ids
    ensures var after := base - ids + more;
            base - (ids + {id}) + SetVector(more, id, v) == if v.Some? then after[id := v.value] else after - {id}
  {
  }

  /** Importing distinct entries one by one leaves what the store's single import step leaves. */
  lemma {:induction false} ImportIsOneStep(s: VectorIndex.Store, entries: seq<Entry>, mode: Mode,
                                           embed: string -> Vector)
    requires DistinctIds(entries) && mode != UnknownMode
    ensures var p := ImportEntries(Begin(s.items, s.vectors, mode), entries, mode);
            VectorIndex.Next(embed, s, VectorIndex.Import(ItemsIn(entries), VectorsIn(entries), StepMode(mode)))
            == s.(items := p.items, vectors := p.vectors)
  {
    if entries == [] {
      EmptyImport(s, mode, embed);
    } else {
      var n := |entries| - 1;
      var init, e := entries[..n], entries[n];
      ImportIsOneStep(s, init, mode, embed);
      NotYetIn(entries);
      var p := ImportEntries(Begin(s.items, s.vectors, mode), init, mode);
      var items, vectors := ItemsIn(init), VectorsIn(init);
      assert ImportEntries(Begin(s.items, s.vectors, mode), entries, mode) == ImportOne(p, e, mode);
      assert ItemsIn(entries) == items[e.item.id := e.item];
      assert VectorsIn(entries) == SetVector(vectors, e.item.id, e.vector);
      hide ImportEntries, ItemsIn, VectorsIn;
      OneStepMore(s, p, items, vectors, e, mode, embed);
    }
  }

  lemma EmptyImport(s: VectorIndex.Store, mode: Mode, embed: string -> Vector)
    requires mode != UnknownMode
    ensures var p := Begin(s.items, s.vectors, mode);
            VectorIndex.Next(embed, s, VectorIndex.Import(map[], map[], StepMode(mode)))
            == s.(items := p.items, vectors := p.vectors)
  {
    var none: Items, noVectors: map<string, Vector> := map[], map[];
    assert none - s.items.Keys == none && noVectors - s.items.Keys == noVectors;
    assert s.items + none == s.items && s.vectors + noVectors == s.vectors && s.vectors - none.Keys == s.vectors;
  }

  lemma OneStepMore(s: VectorIndex.Store, p: Progress, items: Items, vectors: map<string, Vector>, e: Entry, mode: Mode,
                    embed: string -> Vector)
    requires mode != UnknownMode && e.item.id != "" && e.item.id !in items && e.item.id !in vectors
    requires VectorIndex.Next(embed, s, VectorIndex.Import(items, vectors, StepMode(mode)))
             == s.(items := p.items, vectors := p.vectors)
    ensures var id, p' := e.item.id, ImportOne(p, e, mode);
            VectorIndex.Next(embed, s, VectorIndex.Import(items[id := e.item], SetVector(vectors, id, e.vector),
                                                          StepMode(mode)))
            == s.(items := p'.items, vectors := p'.vectors)
  {
    match mode
    case Merge => MergeStepMore(s, p, items, vectors, e);
    case Upsert => UpsertStepMore(s, p, items, vectors, e);
    case Replace =>
  }

  lemma MergeStepMore(s: VectorIndex.Store, p: Progress, items: Items, vectors: map<string, Vector>, e: Entry)
    requires e.item.id != "" && e.item.id !in items && e.item.id !in vectors
    requires p.items == s.items + (items - s.items.Keys) && p.vectors == s.vectors + (vectors - s.items.Keys)
    ensures var id, p' := e.item.id, ImportOne(p, e, Merge);
            && p'.items == s.items + (items[id := e.item] - s.items.Keys)
            && p'.vectors == s.vectors + (SetVector(vectors, id, e.vector) - s.items.Keys)
  {
    MergeOneMore(s.items, items, s.items.Keys, e.item.id, e.item);
    if e.vector.Some? {
      MergeOneMore(s.vectors, vectors, s.items.Keys, e.item.id, e.vector.value);
    }
  }

  lemma UpsertStepMore(s: VectorIndex.Store, p: Progress, items: Items, vectors: map<string, Vector>, e: Entry)
    requires e.item.id != "" && e.item.id !in items && e.item.id !in vectors
    requires p.items == s.items + items && p.vectors == s.vectors - items.Keys + vectors
    ensures var id, p' := e.item.id, ImportOne(p, e, Upsert);
            && p'.items == s.items + items[id := e.item]
            && p'.vectors == s.vectors - items[id := e.item].Keys + SetVector(vectors, id, e.vector)
  {
    var id := e.item.id;
    OverwriteOneMore(s.vectors, items.Keys, vectors, id, e.vector);
    assert items[id := e.item].Keys == items.Keys + {id};
    assert s.items + items[id := e.item] == (s.items + items)[id := e.item];
    hide SetVector;
  }
}
