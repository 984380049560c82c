/** The keyed store with its vector index, called sequentially (memory/engine_scored_store.go). */
module ScoredStore {
  import opened Types

  function Clamp(imp: real): (r: real)
    ensures 0.0 <= r <= 1.0 && (0.0 <= imp <= 1.0 ==> r == imp)
    ensures (imp < 0.0 ==> r == 0.0) && (imp > 1.0 ==> r == 1.0)
  {
    if imp < 0.0 then 0.0 else if imp > 1.0 then 1.0 else imp
  }

  /** The item as `add` stores it. */
  function Stored(item: Item, id: string, now: Time): Item
  {
    item.(id := id,
          createdAt := if item.createdAt == ZERO_TIME then now else item.createdAt,
          accessedAt := now,
          importance := Clamp(item.importance))
  }

  /** The item as `update` leaves it, after the caller's change. */
  function Changed(item: Item, now: Time): Item
  {
    item.(accessedAt := now, importance := Clamp(item.importance))
  }

  class Store {
    var items: Items
    var vectors: map<string, Vector>
    var counter: nat

    constructor ()
      ensures items == map[] && vectors == map[] && counter == 0 && Valid()
    {
      items, vectors, counter := map[], map[], 0;
    }

    ghost predicate Valid()
      reads this
    {
      WellFormed(items)
    }

    /** Mint an ID if none is given, normalise, embed, store. */
    method Add(item: Item, mint: nat -> string, now: Time, embed: string -> Result<Vector>) returns (r: Result<string>)
      requires Valid() && forall n :: mint(n) != ""
      modifies this
      ensures Valid()
      ensures r.Ok? <==> embed(item.content).Ok?
      ensures r.Err? ==> items == old(items) && vectors == old(vectors)
      ensures r.Ok? ==>
                && r.value == (if item.id == "" then mint(old(counter) + 1) else item.id)
                && items == old(items)[r.value := Stored(item, r.value, now)]
                && vectors == old(vectors)[r.value := embed(item.content).value]
      ensures r.Ok? ==>
                var it := items[r.value];
                && it.id == r.value && it.content == item.content && it.tags == item.tags && it.meta == item.meta
                && it.createdAt == (if item.createdAt == 0 then now else item.createdAt) && it.accessedAt == now
                && (0.0 <= item.importance <= 1.0 ==> it.importance == item.importance)
                && (item.importance < 0.0 ==> it.importance == 0.0) && (item.importance > 1.0 ==> it.importance == 1.0)
      ensures counter == old(counter) + (if item.id == "" then 1 else 0)
    {
      var it := item;
      if it.id == "" {
        counter := counter + 1;
        it := it.(id := mint(counter));
      }
      if it.createdAt == ZERO_TIME {
        it := it.(createdAt := now);
      }
      it := it.(accessedAt := now, importance := Clamp(it.importance));
      var vec := embed(it.content);
      if vec.Err? {
        return Err(vec.error);
      }
      items := items[it.id := it];
      vectors := vectors[it.id := vec.value];
      r := Ok(it.id);
    }

    method Get(id: string, now: Time) returns (r: Result<Item>)
      requires Valid()
      modifies this
      ensures Valid() && vectors == old(vectors) && counter == old(counter)
      ensures r.Ok? <==> id in old(items)
      ensures r.Ok? ==> r.value == old(items)[id].(accessedAt := now) && items == old(items)[id := r.value]
      ensures r.Err? ==> items == old(items)
    {
      if id !in items {
        return Err("not found");
      }
      items := items[id := items[id].(accessedAt := now)];
      r := Ok(items[id]);
    }

    /** Change an item; when its content changed, embed again. A failed embedding leaves the old vector. */
    method Update(id: string, change: Item -> Item, now: Time, embed: string -> Result<Vector>) returns (r: Result<()>)
      requires Valid() && forall it :: change(it).id == it.id
      modifies this
      ensures Valid() && counter == old(counter)
      ensures id !in old(items) ==> r.Err? && items == old(items) && vectors == old(vectors)
      ensures id in old(items) ==>
                var it := Changed(change(old(items)[id]), now);
                && items == old(items)[id := it]
                && (it.content == old(items)[id].content ==> r.Ok? && vectors == old(vectors))
                && (it.content != old(items)[id].content ==>
                      && (r.Ok? <==> embed(it.content).Ok?)
                      && vectors == if r.Ok? then old(vectors)[id := embed(it.content).value] else old(vectors))
      ensures id in old(items) ==>
                var was, it := change(old(items)[id]), items[id];
                && it.id == id && it.content == was.content && it.tags == was.tags && it.meta == was.meta
                && it.createdAt == was.createdAt && it.accessedAt == now
                && (0.0 <= was.importance <= 1.0 ==> it.importance == was.importance)
                && (was.importance < 0.0 ==> it.importance == 0.0) && (was.importance > 1.0 ==> it.importance == 1.0)
    {
      if id !in items {
        return Err("not found");
      }
      var item := items[id];
      var prevContent := item.content;
      item := change(item);
      item := item.(accessedAt := now, importance := Clamp(item.importance));
      items := items[id := item];
      if item.content != prevContent {
        var vec := embed(item.content);
        if vec.Err? {
          return Err(vec.error);
        }
        vectors := vectors[id := vec.value];
      }
      r := Ok(());
    }

    method Remove(id: string) returns (ok: bool)
      requires Valid()
      modifies this
      ensures Valid() && counter == old(counter)
      ensures ok <==> id in old(items)
      ensures items == old(items) - {id}
      ensures vectors == if ok then old(vectors) - {id} else old(vectors)
    {
      ok := id in items;
      if ok {
        items := items - {id};
        vectors := vectors - {id};
      } else {
        assert items - {id} == items;
      }
    }
  }
}
