/** Scoped statistics over the paged listing (memory/scoped_lifecycle.go). */
module Stats {
  import opened Types
  import opened Rounds
  import opened PagedLoop
  import opened CycledListing

  datatype Stats = Stats(count: int, capacity: int, oldestAge: int, avgImportance: real)

  function ImportanceSum(items: seq<Item>): real
  {
    if items == [] then 0.0 else ImportanceSum(items[..|items| - 1]) + items[|items| - 1].importance
  }

  ghost predicate IsOldest(t: Time, items: seq<Item>)
  {
    && (exists i :: 0 <= i < |items| && items[i].createdAt == t)
    && forall i :: 0 <= i < |items| ==> t <= items[i].createdAt
  }

  /** The statistics of a list of items. */
  ghost predicate Summarises(st: Stats, items: seq<Item>, now: Time)
  {
    && st.count == |items|
    && (items == [] ==> st.avgImportance == 0.0 && st.oldestAge == 0)
    && (items != [] ==> st.avgImportance * (|items| as real) == ImportanceSum(items)
                        && IsOldest(now - st.oldestAge, items))
  }

  lemma OldestSoFar(items: seq<Item>, i: nat, oldest: Time)
    requires i < |items| && (i > 0 ==> IsOldest(oldest, items[..i]))
    ensures IsOldest(if i == 0 || items[i].createdAt < oldest then items[i].createdAt else oldest, items[..i + 1])
  {
    assert items[..i + 1] == items[..i] + [items[i]];
    if i > 0 {
      var j :| 0 <= j < i && items[..i][j].createdAt == oldest;
      assert items[..i + 1][j].createdAt == oldest;
    }
    assert items[..i + 1][i].createdAt == items[i].createdAt;
  }

  method Summarise(items: seq<Item>, capacity: int, now: Time) returns (st: Stats)
    ensures Summarises(st, items, now) && st.capacity == capacity
    ensures forall i :: 0 <= i < |items| ==> now - items[i].createdAt <= st.oldestAge
    ensures items != [] ==> exists i :: 0 <= i < |items| && now - items[i].createdAt == st.oldestAge
  {
    hide IsOldest;
    var impSum, oldest, hasItem := 0.0, ZERO_TIME, false;
    for i := 0 to |items|
      invariant impSum == ImportanceSum(items[..i])
      invariant hasItem <==> i > 0
      invariant hasItem ==> IsOldest(oldest, items[..i])
    {
      var it := items[i];
      assert items[..i + 1][..i] == items[..i];
      OldestSoFar(items, i, oldest);
      impSum := impSum + it.importance;
      if !hasItem || it.createdAt < oldest {
        oldest, hasItem := it.createdAt, true;
      }
    }
    assert items[..|items|] == items;
    var avg := 0.0;
    if |items| > 0 {
      avg := impSum / (|items| as real);
    }
    st := Stats(|items|, capacity, if hasItem then now - oldest else 0, avg);
    if hasItem {
      OldestHasGreatestAge(items, oldest, now);
    }
  }

  lemma OldestHasGreatestAge(items: seq<Item>, oldest: Time, now: Time)
    requires IsOldest(oldest, items)
    ensures forall i :: 0 <= i < |items| ==> now - items[i].createdAt <= now - oldest
    ensures exists i :: 0 <= i < |items| && now - items[i].createdAt == now - oldest
  {
  }

  lemma {:induction false} SumOfConcat(a: seq<Item>, b: seq<Item>)
    ensures ImportanceSum(a + b) == ImportanceSum(a) + ImportanceSum(b)
    ensures |b| == 1 ==> ImportanceSum(b) == b[0].importance
  {
    if b == [] {
      assert a + b == a;
    } else {
      var init := b[..|b| - 1];
      SumOfConcat(a, init);
      assert (a + b)[..|a + b| - 1] == a + init;
    }
  }

  lemma {:induction false} SumOfRepeat(l: seq<Item>, m: nat)
    ensures ImportanceSum(Repeat(l, m)) == (m as real) * ImportanceSum(l)
  {
    if m > 0 {
      SumOfRepeat(l, m - 1);
      SumOfConcat(Repeat(l, m - 1), l);
      hide ImportanceSum;
      OneMoreTime(m, ImportanceSum(l));
    }
  }

  lemma OneMoreTime(m: nat, x: real)
    requires m > 0
    ensures ((m - 1) as real) * x + x == (m as real) * x
  {
  }

  lemma {:induction false} SameOldest(l: seq<Item>, m: nat, t: Time, t': Time)
    requires m > 0 && IsOldest(t, l) && IsOldest(t', Repeat(l, m))
    ensures t == t'
  {
    RepeatElements(l, m);
    var i :| 0 <= i < |l| && l[i].createdAt == t;
    var j :| 0 <= j < |Repeat(l, m)| && Repeat(l, m)[j].createdAt == t';
    assert l[i] in l && Repeat(l, m)[j] in Repeat(l, m);
  }

  /** Over a listing that came out `m` times, the count is `m` times too high; average and age are right. */
  lemma CycledStats(l: seq<Item>, m: nat, now: Time, st: Stats, cycled: Stats)
    requires m > 0 && Summarises(st, l, now) && Summarises(cycled, Repeat(l, m), now)
    ensures cycled.count == m * st.count
    ensures cycled.avgImportance == st.avgImportance && cycled.oldestAge == st.oldestAge
  {
    hide Repeat, IsOldest, ImportanceSum;
    RepeatLength(l, m);
    RepeatOnce(l, m);
    if l != [] {
      MulMonotone(1, m, |l|);
      assert Repeat(l, m) != [];
      SumOfRepeat(l, m);
      SameOldest(l, m, now - st.oldestAge, now - cycled.oldestAge);
      RealProduct(m, |l|);
      SameAverage(cycled.avgImportance, st.avgImportance, m as real, |l| as real, (m * |l|) as real);
    }
  }

  lemma RealProduct(a: nat, b: nat)
    ensures (a * b) as real == (a as real) * (b as real)
  {
  }

  lemma SameAverage(a: real, b: real, m: real, n: real, mn: real)
    requires m > 0.0 && n > 0.0 && mn == m * n
    requires a * mn == m * (b * n)
    ensures a == b
  {
    assert mn > 0.0;
    assert m * (b * n) == b * mn;
    assert (a - b) * mn == 0.0;
  }
}
