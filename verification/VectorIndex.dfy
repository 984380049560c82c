/**
 * The store's items and its vector index under interleaved callers, one step per critical
 * section (memory/engine_scored_store.go). An update changes the item in one section and the
 * vector in a second one; a get reads in one section and touches the access time in another.
 */
module VectorIndex {
  import opened Types

  /** An update between its two sections, and the content it will embed. */
  datatype Pending = Pending(id: string, content: string)

  datatype Store = Store(
    items: Items,
    vectors: map<string, Vector>,
    updates: map<nat, Pending>,
    gets: map<nat, string>)

  datatype Op =
    | Add(item: Item)
    | UpdateFirst(caller: nat, id: string, changed: Item)
    | UpdateSecond(caller: nat)
    | UpdateFails(caller: nat)
    | GetFirst(caller: nat, id: string)
    | GetSecond(caller: nat, now: Time)
    | Remove(id: string)
    | Import(entries: Items, vecs: map<string, Vector>, mode: ImportMode)

  /** Keep what is there, overwrite it entry by entry, or drop it first. */
  datatype ImportMode = KeepExisting | Overwrite | ReplaceAll

  function Next(embed: string -> Vector, s: Store, op: Op): Store
  {
    match op
    case Add(it) =>
      s.(items := s.items[it.id := it], vectors := s.vectors[it.id := embed(it.content)])
    case UpdateFirst(c, id, changed) =>
      if id !in s.items then s
      else
        var s' := s.(items := s.items[id := changed]);
        if changed.content == s.items[id].content then s'
        else s'.(updates := s.updates[c := Pending(id, changed.content)])
    case UpdateSecond(c) =>
      if c !in s.updates then s
      else
        var p := s.updates[c];
        s.(vectors := s.vectors[p.id := embed(p.content)], updates := s.updates - {c})
    case UpdateFails(c) =>
      s.(updates := s.updates - {c})
    case GetFirst(c, id) =>
      if id in s.items then s.(gets := s.gets[c := id]) else s
    case GetSecond(c, now) =>
      if c !in s.gets then s
      else
        var id := s.gets[c];
        var s' := s.(gets := s.gets - {c});
        if id in s.items then s'.(items := s.items[id := s.items[id].(accessedAt := now)]) else s'
    case Remove(id) =>
      if id in s.items then s.(items := s.items - {id}, vectors := s.vectors - {id}) else s
    case Import(entries, vecs, mode) =>
      match mode
      case KeepExisting =>
        s.(items := s.items + (entries - s.items.Keys), vectors := s.vectors + (vecs - s.items.Keys))
      case Overwrite =>
        s.(items := s.items + entries, vectors := s.vectors - entries.Keys + vecs)
      case ReplaceAll =>
        s.(items := entries, vectors := vecs)
  }

  // ----- Coherence -----

  /** An update of `id` is between its two sections. */
  ghost predicate InFlight(s: Store, id: string)
  {
    exists c :: c in s.updates && s.updates[c].id == id
  }

  ghost predicate Coherent(embed: string -> Vector, s: Store)
  {
    && s.vectors.Keys == s.items.Keys
    && forall id :: id in s.items ==> s.vectors[id] == embed(s.items[id].content)
  }

  /**
   * The discipline: one update per ID at a time, no removal, addition or import of an ID during
   * its update, callbacks keep the ID, embedding succeeds, and imports bring correct vectors.
   */
  ghost predicate Disciplined(embed: string -> Vector, s: Store, op: Op)
  {
    match op
    case Add(it) => it.id != "" && !InFlight(s, it.id)
    case UpdateFirst(c, id, changed) => c !in s.updates && changed.id == id && !InFlight(s, id)
    case UpdateFails(_) => false
    case Remove(id) => !InFlight(s, id)
    case Import(entries, vecs, mode) =>
      && WellFormed(entries) && vecs.Keys == entries.Keys
      && (forall id :: id in entries ==> vecs[id] == embed(entries[id].content))
      && (mode.Overwrite? ==> forall id :: id in entries ==> !InFlight(s, id))
      && (mode.ReplaceAll? ==> s.updates == map[])
    case _ => true
  }

  ghost predicate Inv(embed: string -> Vector, s: Store)
  {
    && WellFormed(s.items) && s.vectors.Keys == s.items.Keys
    && (forall id :: id in s.items ==> s.vectors[id] == embed(s.items[id].content) || InFlight(s, id))
    && (forall c :: c in s.updates ==>
          s.updates[c].id in s.items && s.updates[c].content == s.items[s.updates[c].id].content)
    && (forall c, c' :: c in s.updates && c' in s.updates && s.updates[c].id == s.updates[c'].id ==> c == c')
  }

  lemma StepKeepsInv(embed: string -> Vector, s: Store, op: Op)
    requires Inv(embed, s) && Disciplined(embed, s, op)
    ensures Inv(embed, Next(embed, s, op))
  {
    hide Inv, Next, Disciplined;
    match op
    case Add(it) => AddKeepsInv(embed, s, it);
    case UpdateFirst(c, id, changed) => UpdateFirstKeepsInv(embed, s, c, id, changed);
    case UpdateSecond(c) => UpdateSecondKeepsInv(embed, s, c);
    case UpdateFails(c) => NeverFails(embed, s, c);
    case GetFirst(c, id) => GetFirstKeepsInv(embed, s, c, id);
    case GetSecond(c, now) => GetSecondKeepsInv(embed, s, c, now);
    case Remove(id) => RemoveKeepsInv(embed, s, id);
    case Import(entries, vecs, mode) => ImportKeepsInv(embed, s, entries, vecs, mode);
  }

  lemma SameFlights(s: Store, s': Store)
    requires s'.updates == s.updates
    ensures forall id :: InFlight(s', id) <==> InFlight(s, id)
  {
  }

  lemma NeverFails(embed: string -> Vector, s: Store, c: nat)
    ensures !Disciplined(embed, s, UpdateFails(c))
  {
  }

  lemma AddKeepsInv(embed: string -> Vector, s: Store, it: Item)
    requires Inv(embed, s) && Disciplined(embed, s, Add(it))
    ensures Inv(embed, Next(embed, s, Add(it)))
  {
    SameFlights(s, Next(embed, s, Add(it)));
    assert forall c :: c in s.updates ==> s.updates[c].id != it.id;
  }

  /** Renewing one access time keeps the invariant. */
  lemma TouchKeepsInv(embed: string -> Vector, s: Store, s': Store, id: string, now: Time)
    requires Inv(embed, s) && id in s.items && s'.updates == s.updates && s'.vectors == s.vectors
    requires s'.items == s.items[id := s.items[id].(accessedAt := now)]
    ensures Inv(embed, s')
  {
    SameFlights(s, s');
    hide InFlight;
  }

  lemma SameStoreKeepsInv(embed: string -> Vector, s: Store, s': Store)
    requires Inv(embed, s) && s'.items == s.items && s'.updates == s.updates && s'.vectors == s.vectors
    ensures Inv(embed, s')
  {
    SameFlights(s, s');
    hide InFlight;
  }

  lemma GetFirstKeepsInv(embed: string -> Vector, s: Store, c: nat, id: string)
    requires Inv(embed, s)
    ensures Inv(embed, Next(embed, s, GetFirst(c, id)))
  {
    hide Inv;
    SameStoreKeepsInv(embed, s, Next(embed, s, GetFirst(c, id)));
  }

  lemma GetSecondKeepsInv(embed: string -> Vector, s: Store, c: nat, now: Time)
    requires Inv(embed, s)
    ensures Inv(embed, Next(embed, s, GetSecond(c, now)))
  {
    hide Inv;
    var s' := Next(embed, s, GetSecond(c, now));
    if c in s.gets && s.gets[c] in s.items {
      TouchKeepsInv(embed, s, s', s.gets[c], now);
    } else {
      SameStoreKeepsInv(embed, s, s');
    }
  }

  lemma RemoveKeepsInv(embed: string -> Vector, s: Store, id: string)
    requires Inv(embed, s) && Disciplined(embed, s, Remove(id))
    ensures Inv(embed, Next(embed, s, Remove(id)))
  {
    hide Inv, InFlight;
    var s' := Next(embed, s, Remove(id));
    if id in s.items {
      RemovedKeepsInv(embed, s, s', id);
    }
  }

  lemma RemovedKeepsInv(embed: string -> Vector, s: Store, s': Store, id: string)
    requires Inv(embed, s) && !InFlight(s, id)
    requires s'.items == s.items - {id} && s'.vectors == s.vectors - {id} && s'.updates == s.updates
    ensures Inv(embed, s')
  {
    SameFlights(s, s');
    NoUpdateOf(s, id);
    hide InFlight;
    assert s'.vectors.Keys == s'.items.Keys;
  }

  lemma NoUpdateOf(s: Store, id: string)
    requires !InFlight(s, id)
    ensures forall c :: c in s.updates ==> s.updates[c].id != id
  {
  }

  lemma ImportKeepsInv(embed: string -> Vector, s: Store, entries: Items, vecs: map<string, Vector>, mode: ImportMode)
    requires Inv(embed, s) && Disciplined(embed, s, Import(entries, vecs, mode))
    ensures Inv(embed, Next(embed, s, Import(entries, vecs, mode)))
  {
    match mode
    case ReplaceAll =>
    case Overwrite =>
      hide *;
      OverwriteKeepsInv(embed, s, entries, vecs);
    case KeepExisting =>
      NewEntries(embed, s, entries, vecs);
      hide *;
      OverwriteKeepsInv(embed, s, entries - s.items.Keys, vecs - s.items.Keys);
  }

  /** Keeping what is there amounts to overwriting with the new entries only. */
  lemma NewEntries(embed: string -> Vector, s: Store, entries: Items, vecs: map<string, Vector>)
    requires Inv(embed, s) && Disciplined(embed, s, Import(entries, vecs, KeepExisting))
    ensures var news := Import(entries - s.items.Keys, vecs - s.items.Keys, Overwrite);
            && Disciplined(embed, s, news)
            && Next(embed, s, Import(entries, vecs, KeepExisting)) == Next(embed, s, news)
  {
    var news := entries - s.items.Keys;
    assert forall id :: InFlight(s, id) ==> id in s.items;
    assert s.vectors - news.Keys == s.vectors;
  }

  lemma OverwriteKeepsInv(embed: string -> Vector, s: Store, entries: Items, vecs: map<string, Vector>)
    requires Inv(embed, s) && Disciplined(embed, s, Import(entries, vecs, Overwrite))
    ensures Inv(embed, Next(embed, s, Import(entries, vecs, Overwrite)))
  {
    var s' := Next(embed, s, Import(entries, vecs, Overwrite));
    UpsertedEntries(s, entries, vecs);
    SameFlights(s, s');
    assert forall c :: c in s.updates ==> s.updates[c].id !in entries;
    hide InFlight, Next, Disciplined;
    UpsertKeepsInv(embed, s, s', entries, vecs);
  }

  /** What an upsert leaves under each ID. */
  lemma UpsertedEntries(s: Store, entries: Items, vecs: map<string, Vector>)
    requires vecs.Keys == entries.Keys && s.vectors.Keys == s.items.Keys
    ensures var items, vectors := s.items + entries, s.vectors - entries.Keys + vecs;
            && vectors.Keys == items.Keys
            && (forall id :: id in entries ==> items[id] == entries[id] && vectors[id] == vecs[id])
            && (forall id :: id in s.items && id !in entries ==>
                  items[id] == s.items[id] && vectors[id] == s.vectors[id])
  {
  }

  lemma UpsertKeepsInv(embed: string -> Vector, s: Store, s': Store, entries: Items, vecs: map<string, Vector>)
    requires Inv(embed, s) && WellFormed(entries) && vecs.Keys == entries.Keys
    requires forall id :: id in entries ==> vecs[id] == embed(entries[id].content)
    requires forall c :: c in s.updates ==> s.updates[c].id !in entries
    requires s'.items == s.items + entries && s'.vectors.Keys == s'.items.Keys && s'.updates == s.updates
    requires forall id :: id in entries ==> s'.items[id] == entries[id] && s'.vectors[id] == vecs[id]
    requires forall id :: id in s.items && id !in entries ==>
               s'.items[id] == s.items[id] && s'.vectors[id] == s.vectors[id]
    requires forall id :: InFlight(s', id) <==> InFlight(s, id)
    ensures Inv(embed, s')
  {
    hide InFlight;
    forall id | id in s'.items
      ensures s'.items[id].id == id && id != ""
      ensures s'.vectors[id] == embed(s'.items[id].content) || InFlight(s', id)
    {
      if id !in entries {
        assert id in s.items;
      }
    }
  }

  lemma UpdateFirstKeepsInv(embed: string -> Vector, s: Store, c: nat, id: string, changed: Item)
    requires Inv(embed, s) && Disciplined(embed, s, UpdateFirst(c, id, changed))
    ensures Inv(embed, Next(embed, s, UpdateFirst(c, id, changed)))
  {
    var s' := Next(embed, s, UpdateFirst(c, id, changed));
    assert forall c' :: c' in s.updates ==> s.updates[c'].id != id;
    if id !in s.items {
      return;
    }
    hide Next;
    if changed.content == s.items[id].content {
      assert s' == s.(items := s.items[id := changed]);
      SameFlights(s, s');
      RenewedKeepsInv(embed, s, s', id, changed);
    } else {
      assert s' == s.(items := s.items[id := changed], updates := s.updates[c := Pending(id, changed.content)]);
      FlightsGrow(s, s', c, id);
      StartedKeepsInv(embed, s, s', c, id, changed);
    }
  }

  lemma RenewedKeepsInv(embed: string -> Vector, s: Store, s': Store, id: string, changed: Item)
    requires Inv(embed, s) && id in s.items && changed.id == id && changed.content == s.items[id].content
    requires s' == s.(items := s.items[id := changed])
    requires forall j :: InFlight(s, j) ==> InFlight(s', j)
    ensures Inv(embed, s')
  {
    hide InFlight;
  }

  lemma StartedKeepsInv(embed: string -> Vector, s: Store, s': Store, c: nat, id: string, changed: Item)
    requires Inv(embed, s) && id in s.items && changed.id == id && c !in s.updates
    requires forall c' :: c' in s.updates ==> s.updates[c'].id != id
    requires s' == s.(items := s.items[id := changed], updates := s.updates[c := Pending(id, changed.content)])
    requires InFlight(s', id) && forall j :: InFlight(s, j) ==> InFlight(s', j)
    ensures Inv(embed, s')
  {
    hide InFlight;
  }

  lemma FlightsGrow(s: Store, s': Store, c: nat, id: string)
    requires c !in s.updates && s'.updates.Keys == s.updates.Keys + {c} && s'.updates[c].id == id
    requires forall c' :: c' in s.updates ==> s'.updates[c'] == s.updates[c']
    ensures InFlight(s', id)
    ensures forall j :: InFlight(s, j) ==> InFlight(s', j)
  {
    forall j | InFlight(s, j)
      ensures InFlight(s', j)
    {
      var c' :| c' in s.updates && s.updates[c'].id == j;
      assert c' in s'.updates && s'.updates[c'].id == j;
    }
  }

  lemma UpdateSecondKeepsInv(embed: string -> Vector, s: Store, c: nat)
    requires Inv(embed, s)
    ensures Inv(embed, Next(embed, s, UpdateSecond(c)))
  {
    var s' := Next(embed, s, UpdateSecond(c));
    if c in s.updates {
      forall j | j in s.items && InFlight(s, j) && j != s.updates[c].id
        ensures InFlight(s', j)
      {
        var c' :| c' in s.updates && s.updates[c'].id == j;
        assert c' in s'.updates;
      }
    }
  }

  // ----- Runs -----

  ghost predicate Run(embed: string -> Vector, states: seq<Store>, ops: seq<Op>)
  {
    && |states| == |ops| + 1
    && forall i :: 0 <= i < |ops| ==> states[i + 1] == Next(embed, states[i], ops[i])
  }

  ghost predicate DisciplinedRun(embed: string -> Vector, states: seq<Store>, ops: seq<Op>)
  {
    && Run(embed, states, ops)
    && states[0] == Store(map[], map[], map[], map[])
    && forall i :: 0 <= i < |ops| ==> Disciplined(embed, states[i], ops[i])
  }

  lemma {:induction false} RunKeepsInv(embed: string -> Vector, states: seq<Store>, ops: seq<Op>, i: nat)
    requires DisciplinedRun(embed, states, ops) && i < |states|
    ensures Inv(embed, states[i])
  {
    if i > 0 {
      RunKeepsInv(embed, states, ops, i - 1);
      StepKeepsInv(embed, states[i - 1], ops[i - 1]);
    }
  }

  /** In every disciplined run a stale vector has an update in flight, and every quiescent state is coherent. */
  lemma QuiescentStatesAreCoherent(embed: string -> Vector, states: seq<Store>, ops: seq<Op>, i: nat)
    requires DisciplinedRun(embed, states, ops) && i < |states|
    ensures forall id :: id in states[i].items ==>
              id in states[i].vectors
              && (states[i].vectors[id] != embed(states[i].items[id].content) ==> InFlight(states[i], id))
    ensures states[i].updates == map[] ==> Coherent(embed, states[i])
  {
    RunKeepsInv(embed, states, ops, i);
  }

  /** A get's second section changes nothing but one access time: it revives nothing and undoes no update. */
  lemma GetOnlyTouches(embed: string -> Vector, s: Store, c: nat, now: Time, id: string)
    ensures var s' := Next(embed, s, GetSecond(c, now));
            && s'.items.Keys == s.items.Keys && s'.vectors == s.vectors && s'.updates == s.updates
            && (id in s.items ==> s'.items[id].(accessedAt := s.items[id].accessedAt) == s.items[id])
            && (id in s.items && s'.items[id] != s.items[id] ==> c in s.gets && s.gets[c] == id)
            && (c in s.gets && s.gets[c] == id && id in s.items ==> s'.items[id].accessedAt == now)
  {
  }

  /** An update that no other step interrupts stores the item and, if the content changed, its new vector. */
  lemma UninterruptedUpdate(embed: string -> Vector, s: Store, c: nat, changed: Item)
    requires changed.id in s.items && c !in s.updates
    ensures var s' := Next(embed, Next(embed, s, UpdateFirst(c, changed.id, changed)), UpdateSecond(c));
            && s'.items == s.items[changed.id := changed] && s'.updates == s.updates && s'.gets == s.gets
            && s'.vectors == (if changed.content == s.items[changed.id].content then s.vectors
                              else s.vectors[changed.id := embed(changed.content)])
            && (Coherent(embed, s) ==> Coherent(embed, s'))
  {
    var s1 := Next(embed, s, UpdateFirst(c, changed.id, changed));
    var s' := Next(embed, s1, UpdateSecond(c));
    assert s'.updates == s.updates;
    assert s'.items == s.items[changed.id := changed];
    hide Next;
    if Coherent(embed, s) {
      RenewedIsCoherent(embed, s, s', changed);
    }
  }

  /** A get that no other step interrupts renews the access time of a stored item and changes nothing else. */
  lemma UninterruptedGet(embed: string -> Vector, s: Store, c: nat, id: string, now: Time)
    requires c !in s.gets
    ensures Next(embed, Next(embed, s, GetFirst(c, id)), GetSecond(c, now)) ==
            if id in s.items then s.(items := s.items[id := s.items[id].(accessedAt := now)]) else s
  {
    assert s.gets[c := id] - {c} == s.gets;
  }

  /** A removal takes item and vector of one ID, if there is such an item, and nothing else. */
  lemma RemovedIsGone(embed: string -> Vector, s: Store, id: string, other: string)
    requires other != id
    ensures var s' := Next(embed, s, Remove(id));
            && id !in s'.items && (id in s.items ==> id !in s'.vectors)
            && (other in s'.items <==> other in s.items) && (other in s.items ==> s'.items[other] == s.items[other])
            && (other in s'.vectors <==> other in s.vectors)
            && (other in s.vectors ==> s'.vectors[other] == s.vectors[other])
            && s'.updates == s.updates && s'.gets == s.gets
  {
  }

  lemma RenewedIsCoherent(embed: string -> Vector, s: Store, s': Store, changed: Item)
    requires Coherent(embed, s) && changed.id in s.items && s'.items == s.items[changed.id := changed]
    requires s'.vectors == if changed.content == s.items[changed.id].content then s.vectors
                           else s.vectors[changed.id := embed(changed.content)]
    ensures Coherent(embed, s')
  {
  }

  // ----- Each clause of the discipline is needed -----

  /** Two overlapping updates, finished in the opposite order: coherent if and only if their embeddings agree. */
  lemma OverlappingUpdates(embed: string -> Vector, s: Store, first: Item, second: Item)
    requires Coherent(embed, s) && s.updates == map[]
    requires first.id == second.id && first.id in s.items
    requires first.content != s.items[first.id].content && second.content != first.content
    ensures var s1 := Next(embed, s, UpdateFirst(1, first.id, first));
            var s2 := Next(embed, s1, UpdateFirst(2, first.id, second));
            var s3 := Next(embed, s2, UpdateSecond(2));
            var s4 := Next(embed, s3, UpdateSecond(1));
            && s4.updates == map[] && s4.items[first.id] == second && s4.vectors[first.id] == embed(first.content)
            && (Coherent(embed, s4) <==> embed(first.content) == embed(second.content))
  {
    var s1 := Next(embed, s, UpdateFirst(1, first.id, first));
    var s2 := Next(embed, s1, UpdateFirst(2, first.id, second));
    var s3 := Next(embed, s2, UpdateSecond(2));
    var s4 := Next(embed, s3, UpdateSecond(1));
    assert s4.updates == map[];
    assert s4.items == s.items[first.id := second];
    assert s4.vectors == s.vectors[first.id := embed(first.content)];
  }

  /** A removal between an update's sections leaves a vector without an item. */
  lemma RemoveDuringUpdate(embed: string -> Vector, s: Store, changed: Item)
    requires Coherent(embed, s) && s.updates == map[]
    requires changed.id in s.items && changed.content != s.items[changed.id].content
    ensures var s1 := Next(embed, s, UpdateFirst(1, changed.id, changed));
            var s2 := Next(embed, s1, Remove(changed.id));
            var s3 := Next(embed, s2, UpdateSecond(1));
            s3.updates == map[] && changed.id !in s3.items && changed.id in s3.vectors && !Coherent(embed, s3)
  {
    var s1 := Next(embed, s, UpdateFirst(1, changed.id, changed));
    var s3 := Next(embed, Next(embed, s1, Remove(changed.id)), UpdateSecond(1));
    assert s3.updates == map[];
    assert changed.id in s3.vectors.Keys && changed.id !in s3.items.Keys;
  }

  /** When embedding fails the new content keeps the old vector: coherent if and only if that happens to fit. */
  lemma FailedEmbedding(embed: string -> Vector, s: Store, changed: Item)
    requires Coherent(embed, s) && s.updates == map[]
    requires changed.id in s.items && changed.content != s.items[changed.id].content
    ensures var s1 := Next(embed, s, UpdateFirst(1, changed.id, changed));
            var s2 := Next(embed, s1, UpdateFails(1));
            && s2.updates == map[] && s2.items[changed.id] == changed
            && (Coherent(embed, s2) <==> embed(s.items[changed.id].content) == embed(changed.content))
  {
    var s1 := Next(embed, s, UpdateFirst(1, changed.id, changed));
    var s2 := Next(embed, s1, UpdateFails(1));
    assert s2.updates == map[];
    assert s2.vectors == s.vectors && s2.items == s.items[changed.id := changed];
  }

  /** An addition between an update's sections ends up with the update's vector. */
  lemma AddDuringUpdate(embed: string -> Vector, s: Store, changed: Item, added: Item)
    requires Coherent(embed, s) && s.updates == map[]
    requires changed.id in s.items && changed.content != s.items[changed.id].content && added.id == changed.id
    ensures var s1 := Next(embed, s, UpdateFirst(1, changed.id, changed));
            var s2 := Next(embed, s1, Add(added));
            var s3 := Next(embed, s2, UpdateSecond(1));
            && s3.updates == map[] && s3.items[added.id] == added && s3.vectors[added.id] == embed(changed.content)
            && (Coherent(embed, s3) <==> embed(changed.content) == embed(added.content))
  {
    var s1 := Next(embed, s, UpdateFirst(1, changed.id, changed));
    var s3 := Next(embed, Next(embed, s1, Add(added)), UpdateSecond(1));
    assert s3.updates == map[];
    assert s3.items == s.items[added.id := added] && s3.vectors == s.vectors[added.id := embed(changed.content)];
    hide Next;
    OneVectorOff(embed, s, s3, added, embed(changed.content));
  }

  /** With one item and its vector replaced, a coherent store is coherent if and only if the two fit. */
  lemma OneVectorOff(embed: string -> Vector, s: Store, s': Store, it: Item, v: Vector)
    requires Coherent(embed, s) && it.id in s.items
    requires s'.items == s.items[it.id := it] && s'.vectors == s.vectors[it.id := v]
    ensures Coherent(embed, s') <==> v == embed(it.content)
  {
    assert s'.items[it.id] == it && s'.vectors[it.id] == v;
  }

  /** What importing one entry over an existing item does. */
  lemma OneEntryImported(embed: string -> Vector, s: Store, entry: Item, v: Vector)
    ensures Next(embed, s, Import(map[entry.id := entry], map[entry.id := v], Overwrite)) ==
            s.(items := s.items[entry.id := entry], vectors := s.vectors[entry.id := v])
  {
    SingleUpdate(s.items, entry.id, entry);
    SingleUpdate(s.vectors, entry.id, v);
    assert map[entry.id := entry].Keys == {entry.id};
  }

  lemma SingleUpdate<V>(m: map<string, V>, k: string, v: V)
    ensures m + map[k := v] == m[k := v]
    ensures m - {k} + map[k := v] == m[k := v]
  {
  }

  /** So does an entry imported between them, even with its right vector. */
  lemma ImportDuringUpdate(embed: string -> Vector, s: Store, changed: Item, entry: Item)
    requires Coherent(embed, s) && s.updates == map[]
    requires changed.id in s.items && changed.content != s.items[changed.id].content && entry.id == changed.id
    ensures var s1 := Next(embed, s, UpdateFirst(1, changed.id, changed));
            var s2 := Next(embed, s1, Import(map[entry.id := entry], map[entry.id := embed(entry.content)], Overwrite));
            var s3 := Next(embed, s2, UpdateSecond(1));
            && s3.updates == map[] && s3.items[entry.id] == entry && s3.vectors[entry.id] == embed(changed.content)
            && (Coherent(embed, s3) <==> embed(changed.content) == embed(entry.content))
  {
    var s1 := Next(embed, s, UpdateFirst(1, changed.id, changed));
    OneEntryImported(embed, s1, entry, embed(entry.content));
    var s2 := s1.(items := s1.items[entry.id := entry], vectors := s1.vectors[entry.id := embed(entry.content)]);
    var s3 := Next(embed, s2, UpdateSecond(1));
    assert s3.updates == map[];
    assert s3.items == s.items[entry.id := entry] && s3.vectors == s.vectors[entry.id := embed(changed.content)];
    hide Next;
    OneVectorOff(embed, s, s3, entry, embed(changed.content));
  }

  /** An imported vector is taken as it comes: coherent if and only if it is the content's embedding. */
  lemma WrongVectorImported(embed: string -> Vector, s: Store, entry: Item, v: Vector)
    requires Coherent(embed, s) && s.updates == map[] && entry.id in s.items
    ensures var s' := Next(embed, s, Import(map[entry.id := entry], map[entry.id := v], Overwrite));
            s'.updates == map[] && (Coherent(embed, s') <==> v == embed(entry.content))
  {
    hide Next;
    OneEntryImported(embed, s, entry, v);
    OneVectorOff(embed, s, Next(embed, s, Import(map[entry.id := entry], map[entry.id := v], Overwrite)), entry, v);
  }

  ghost predicate Vectorless(s: Store, id: string)
  {
    id in s.items && id !in s.vectors
  }

  ghost predicate ImportsWithout(op: Op, id: string)
  {
    op.Import? && id in op.entries && id !in op.vecs
  }

  lemma OnlyImportsLeaveOut(embed: string -> Vector, s: Store, op: Op, id: string)
    requires Vectorless(Next(embed, s, op), id)
    ensures Vectorless(s, id) || ImportsWithout(op, id)
  {
    match op
    case Import(entries, vecs, mode) =>
    case _ =>
  }

  /**
   * With no discipline at all, whatever overlaps and whichever embeddings fail: an item without a vector
   * was there at the start or came from an import that brought none.
   */
  lemma {:induction false} VectorlessItemsWereImported(embed: string -> Vector, states: seq<Store>, ops: seq<Op>,
                                                       i: nat, id: string)
    requires Run(embed, states, ops) && i < |states| && Vectorless(states[i], id)
    ensures Vectorless(states[0], id) || exists j :: 0 <= j < i && ImportsWithout(ops[j], id)
  {
    if i > 0 {
      assert states[i] == Next(embed, states[i - 1], ops[i - 1]);
      hide Next;
      OnlyImportsLeaveOut(embed, states[i - 1], ops[i - 1], id);
      if Vectorless(states[i - 1], id) {
        VectorlessItemsWereImported(embed, states, ops, i - 1, id);
      }
    }
  }
}
