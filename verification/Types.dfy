/** Data shared by every tier of the memory engine. */
module Types {

  datatype Option<+T> = None | Some(value: T)

  datatype Result<+T> = Ok(value: T) | Err(error: string)

  datatype Kind = Working | Episodic | Semantic

  /** The canonical order in which the manager visits its tiers. */
  const KINDS: seq<Kind> := [Working, Episodic, Semantic]

  lemma EveryKind(k: Kind)
    ensures k in KINDS
  {
    assert KINDS[0] == Working && KINDS[1] == Episodic && KINDS[2] == Semantic;
    match k
    case Working =>
    case Episodic =>
    case Semantic =>
  }

  /** Instants as integers; `ZERO_TIME` is the unset time stamp. */
  type Time = int
  const ZERO_TIME: Time := 0

  type Vector = seq<real>

  /** The dynamic values the engine itself stores in, or reads from, metadata. */
  datatype Value =
    | IntValue(i: int)
    | FloatValue(f: real)
    | StringValue(s: string)
    | TimeValue(t: Time)
    | StringMap(strings: map<string, string>)
    | AnyMap(anys: map<string, Value>)
    | OtherValue

  type Metadata = map<string, Value>

  /**
   * A metadata map is a reference in the source: copying an item copies the
   * reference, so two items may share one map. `Meta(a)` is the map at address
   * `a` of a `Heap`; `NilMeta` is the nil map.
   */
  datatype MetaRef = NilMeta | Meta(addr: nat)
  type Heap = map<nat, Metadata>

  /** The contents of a metadata map; a nil map reads as empty. */
  function MetaOf(heap: Heap, ref: MetaRef): Metadata
  {
    if ref.Meta? && ref.addr in heap then heap[ref.addr] else map[]
  }

  datatype Item = Item(
    id: string,
    content: string,
    tags: seq<string>,
    importance: real,
    createdAt: Time,
    accessedAt: Time,
    meta: MetaRef)

  type Items = map<string, Item>

  /** Every item is stored under its own, non-empty ID. */
  predicate WellFormed(items: Items)
  {
    forall k :: k in items ==> items[k].id == k && k != ""
  }

  datatype SearchResult = SearchResult(item: Item, score: real)
}
