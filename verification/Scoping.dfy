/** Scopes: stamping, reading and filtering (memory/scoped_manager_local.go, scope_local.go, engine_list.go). */
module Scoping {
  import opened Types
  import opened Tokens

  datatype Scope = Scope(user: string, project: string, session: string)

  const SCOPE_KEY := "_scope"

  predicate IsZero(s: Scope)
  {
    s == Scope("", "", "")
  }

  // ----- Reading and stamping -----

  function StringAt(m: map<string, string>, k: string): string
  {
    if k in m then m[k] else ""
  }

  function StringOr(m: map<string, Value>, k: string): string
  {
    if k in m && m[k].StringValue? then m[k].s else ""
  }

  /** The scope written in an item's metadata, in either of its two encodings; zero if there is none. */
  function ScopeIn(m: Metadata): Scope
  {
    if SCOPE_KEY !in m then Scope("", "", "")
    else match m[SCOPE_KEY]
         case StringMap(v) => Scope(StringAt(v, "user"), StringAt(v, "project"), StringAt(v, "session"))
         case AnyMap(v) => Scope(StringOr(v, "user"), StringOr(v, "project"), StringOr(v, "session"))
         case _ => Scope("", "", "")
  }

  function ReadScope(heap: Heap, it: Item): Scope
  {
    ScopeIn(MetaOf(heap, it.meta))
  }

  function Written(s: Scope): map<string, string>
  {
    map["user" := s.user, "project" := s.project, "session" := s.session]
  }

  /** Write the scope into the item's own map, allocating one if it has none; a zero scope writes nothing. */
  function StampScope(heap: Heap, next: nat, it: Item, s: Scope): (Heap, nat, Item)
  {
    if IsZero(s) then (heap, next, it)
    else
      var ref := if it.meta.Meta? then it.meta else Meta(next);
      (heap[ref.addr := MetaOf(heap, it.meta)[SCOPE_KEY := StringMap(Written(s))]],
       if it.meta.Meta? then next else next + 1,
       it.(meta := ref))
  }

  /** How a stamped scope comes back from JSON. */
  function Decoded(s: Scope): Value
  {
    AnyMap(map["user" := StringValue(s.user), "project" := StringValue(s.project), "session" := StringValue(s.session)])
  }

  /** What was stamped is read back, also after a round trip through JSON; other metadata stays. */
  lemma StampReadsBack(heap: Heap, next: nat, it: Item, s: Scope)
    requires !IsZero(s)
    ensures var (heap', _, it') := StampScope(heap, next, it, s);
            && ReadScope(heap', it') == s
            && ScopeIn(MetaOf(heap', it'.meta)[SCOPE_KEY := Decoded(s)]) == s
            && MetaOf(heap', it'.meta) - {SCOPE_KEY} == MetaOf(heap, it.meta) - {SCOPE_KEY}
  {
    var (heap', next', it') := StampScope(heap, next, it, s);
    var m := MetaOf(heap, it.meta);
    assert "user" != "project" && "user" != "session" && "project" != "session" by {
      assert |"user"| == 4 && |"project"| == 7 && |"session"| == 7 && "project"[0] != "session"[0];
    }
    assert MetaOf(heap', it'.meta) == m[SCOPE_KEY := StringMap(Written(s))];
    assert m[SCOPE_KEY := StringMap(Written(s))] - {SCOPE_KEY} == m - {SCOPE_KEY};
  }

  /** The stamp lies under "_scope", with one entry per field; nothing is written for a zero scope. */
  lemma StampInFields(heap: Heap, next: nat, it: Item, s: Scope)
    ensures var (heap', next', it') := StampScope(heap, next, it, s);
            if s.user == "" && s.project == "" && s.session == "" then heap' == heap && it' == it
            else
              && it'.meta == (if it.meta.Meta? then it.meta else Meta(next)) && it' == it.(meta := it'.meta)
              && "_scope" in heap'[it'.meta.addr] && heap'[it'.meta.addr]["_scope"].StringMap?
              && heap'[it'.meta.addr]["_scope"].strings ==
                 map["user" := s.user, "project" := s.project, "session" := s.session]
  {
  }

  /** How a scope is read: a missing entry, or one that is not text, is empty; so is anything but a map. */
  lemma ScopeIsRead(m: Metadata)
    ensures "_scope" !in m ==> ScopeIn(m) == Scope("", "", "")
    ensures "_scope" in m && m["_scope"].StringMap? ==>
              var v := m["_scope"].strings;
              && ("user" in v ==> ScopeIn(m).user == v["user"]) && ("user" !in v ==> ScopeIn(m).user == "")
              && ("project" in v ==> ScopeIn(m).project == v["project"])
              && ("project" !in v ==> ScopeIn(m).project == "")
              && ("session" in v ==> ScopeIn(m).session == v["session"])
              && ("session" !in v ==> ScopeIn(m).session == "")
    ensures "_scope" in m && m["_scope"].AnyMap? ==>
              var v := m["_scope"].anys;
              && ScopeIn(m).user == (if "user" in v && v["user"].StringValue? then v["user"].s else "")
              && ScopeIn(m).project == (if "project" in v && v["project"].StringValue? then v["project"].s else "")
              && ScopeIn(m).session == (if "session" in v && v["session"].StringValue? then v["session"].s else "")
    ensures "_scope" in m && !m["_scope"].StringMap? && !m["_scope"].AnyMap? ==> ScopeIn(m) == Scope("", "", "")
  {
  }

  // ----- Filters -----

  /** How the contract module reads the reserved metadata keys. */
  datatype Readers = Readers(
    disabled: Metadata -> bool,
    pinned: Metadata -> bool,
    source: Metadata -> string,
    category: Metadata -> string,
    matches: (Scope, Scope) -> bool,
    lower: string -> string)

  datatype ListFilter = ListFilter(
    includeDisabled: bool,
    pinnedOnly: bool,
    source: string,
    category: string,
    scope: Scope,
    minImportance: real,
    tags: seq<string>)

  /** What a listing filter admits. */
  ghost predicate Admitted(heap: Heap, it: Item, f: ListFilter, rd: Readers)
  {
    var m := MetaOf(heap, it.meta);
    && (rd.disabled(m) ==> f.includeDisabled)
    && (f.pinnedOnly ==> rd.pinned(m))
    && (f.source == "" || rd.source(m) == f.source)
    && (f.category == "" || rd.category(m) == f.category)
    && (IsZero(f.scope) || rd.matches(f.scope, ReadScope(heap, it)))
    && (f.minImportance <= 0.0 || it.importance >= f.minImportance)
    && (f.tags == [] || SharesTag(f.tags, it.tags, rd.lower))
  }

  method MatchesFilter(heap: Heap, it: Item, f: ListFilter, rd: Readers) returns (r: bool)
    ensures r <==> Admitted(heap, it, f, rd)
    ensures r ==> f.includeDisabled || !rd.disabled(MetaOf(heap, it.meta))
    ensures r && f.pinnedOnly ==> rd.pinned(MetaOf(heap, it.meta))
    ensures r && f.source != "" ==> rd.source(MetaOf(heap, it.meta)) == f.source
    ensures r && f.category != "" ==> rd.category(MetaOf(heap, it.meta)) == f.category
    ensures r && f.scope != Scope("", "", "") ==> rd.matches(f.scope, ScopeIn(MetaOf(heap, it.meta)))
    ensures r && f.minImportance > 0.0 ==> it.importance >= f.minImportance
    ensures r && |f.tags| > 0 ==>
              exists i, j :: 0 <= i < |f.tags| && 0 <= j < |it.tags| && rd.lower(f.tags[i]) == rd.lower(it.tags[j])
    ensures !r ==>
              || (!f.includeDisabled && rd.disabled(MetaOf(heap, it.meta)))
              || (f.pinnedOnly && !rd.pinned(MetaOf(heap, it.meta)))
              || (f.source != "" && rd.source(MetaOf(heap, it.meta)) != f.source)
              || (f.category != "" && rd.category(MetaOf(heap, it.meta)) != f.category)
              || (f.scope != Scope("", "", "") && !rd.matches(f.scope, ScopeIn(MetaOf(heap, it.meta))))
              || (0.0 < f.minImportance && it.importance < f.minImportance)
              || (f.tags != [] && forall i, j :: 0 <= i < |f.tags| && 0 <= j < |it.tags| ==>
                    rd.lower(f.tags[i]) != rd.lower(it.tags[j]))
  {
    var m := MetaOf(heap, it.meta);
    if !f.includeDisabled && rd.disabled(m) {
      return false;
    }
    if f.pinnedOnly && !rd.pinned(m) {
      return false;
    }
    if f.source != "" && rd.source(m) != f.source {
      return false;
    }
    if f.category != "" && rd.category(m) != f.category {
      return false;
    }
    if !IsZero(f.scope) && !rd.matches(f.scope, ReadScope(heap, it)) {
      return false;
    }
    if f.minImportance > 0.0 && it.importance < f.minImportance {
      return false;
    }
    if |f.tags| > 0 {
      var tagSet := set j | 0 <= j < |it.tags| :: rd.lower(it.tags[j]);
      var match_ := false;
      for i := 0 to |f.tags|
        invariant !match_
        invariant forall k, j :: 0 <= k < i && 0 <= j < |it.tags| ==> rd.lower(f.tags[k]) != rd.lower(it.tags[j])
      {
        if rd.lower(f.tags[i]) in tagSet {
          match_ := true;
          break;
        }
      }
      if !match_ {
        return false;
      }
    }
    r := true;
  }

  /** The scoped listing filter: the caller's, with its scope replaced by a non-zero context scope. */
  function ScopedFilter(f: ListFilter, s: Scope): ListFilter
  {
    if IsZero(s) then f else f.(scope := s)
  }

  /** A scoped listing admits what the caller's filter admits in any scope, cut to the items of the scope. */
  lemma ScopedFilterCuts(heap: Heap, it: Item, f: ListFilter, s: Scope, rd: Readers)
    ensures s == Scope("", "", "") ==>
              (Admitted(heap, it, ScopedFilter(f, s), rd) <==> Admitted(heap, it, f, rd))
    ensures s != Scope("", "", "") ==>
              (Admitted(heap, it, ScopedFilter(f, s), rd) <==>
               Admitted(heap, it, f.(scope := Scope("", "", "")), rd) && rd.matches(s, ReadScope(heap, it)))
  {
  }

  /** A scoped listing admits only items of the scope and, by default, no disabled ones. */
  lemma ScopedListingIsConfined(heap: Heap, it: Item, f: ListFilter, s: Scope, rd: Readers)
    requires !IsZero(s) && Admitted(heap, it, ScopedFilter(f, s), rd)
    ensures rd.matches(s, ReadScope(heap, it))
    ensures !f.includeDisabled ==> !rd.disabled(MetaOf(heap, it.meta))
  {
  }

  function KeepScope(results: seq<SearchResult>, heap: Heap, s: Scope, matches: (Scope, Scope) -> bool)
    : seq<SearchResult>
  {
    if results == [] then []
    else
      var init, last := results[..|results| - 1], results[|results| - 1];
      KeepScope(init, heap, s, matches) + (if matches(s, ReadScope(heap, last.item)) then [last] else [])
  }

  method FilterByScope(results: seq<SearchResult>, heap: Heap, s: Scope, matches: (Scope, Scope) -> bool)
    returns (out: seq<SearchResult>)
    ensures out == if IsZero(s) then results else KeepScope(results, heap, s, matches)
  {
    if IsZero(s) {
      return results;
    }
    out := [];
    for i := 0 to |results|
      invariant out == KeepScope(results[..i], heap, s, matches)
    {
      assert results[..i + 1][..i] == results[..i];
      if matches(s, ReadScope(heap, results[i].item)) {
        out := out + [results[i]];
      }
    }
    assert results[..|results|] == results;
  }

  /** Filtering keeps exactly the results of the scope. */
  lemma {:induction false} KeepScopeIsExact(results: seq<SearchResult>, heap: Heap, s: Scope,
                                            matches: (Scope, Scope) -> bool, r: SearchResult)
    ensures r in KeepScope(results, heap, s, matches) <==> r in results && matches(s, ReadScope(heap, r.item))
  {
    if results != [] {
      KeepScopeIsExact(results[..|results| - 1], heap, s, matches, r);
      assert results == results[..|results| - 1] + [results[|results| - 1]];
    }
  }
}
