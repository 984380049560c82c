/** Tokens, keyword scores and tag matching (memory/engine_scored_store.go, engine_semantic.go). */
module Tokens {

  predicate Alnum(c: char)
  {
    'a' <= c <= 'z' || '0' <= c <= '9'
  }

  /** Exactly the lower-case letters and the digits of ASCII belong to tokens. */
  lemma AlnumByCode(c: char)
    ensures Alnum(c) <==> 97 <= c as int <= 122 || 48 <= c as int <= 57
  {
  }

  /** The first `n` characters end inside a token. */
  ghost predicate InToken(s: string, n: nat)
    requires n <= |s|
  {
    n > 0 && Alnum(s[n - 1])
  }

  /** The tokens of the first `n` characters: letters and digits stay together, everything else separates. */
  ghost function SplitTo(s: string, n: nat): (ts: seq<string>)
    requires n <= |s|
    ensures InToken(s, n) ==> ts != []
  {
    if n == 0 then []
    else
      var ts, c := SplitTo(s, n - 1), s[n - 1];
      if !Alnum(c) then ts
      else if InToken(s, n - 1) then ts[..|ts| - 1] + [ts[|ts| - 1] + [c]]
      else ts + [[c]]
  }

  ghost function Split(s: string): seq<string>
  {
    SplitTo(s, |s|)
  }

  lemma Grow(all: seq<string>, ts: seq<string>, cur: string, c: char)
    requires all == ts + [cur]
    ensures all[..|all| - 1] + [all[|all| - 1] + [c]] == ts + [cur + [c]]
  {
    assert all[..|all| - 1] == ts;
  }

  // ----- The tokens are exactly the maximal runs, in order -----

  /** `s[a..b]` is a run of letters and digits, maximal within the first `n` characters. */
  ghost predicate IsRun(s: string, n: nat, a: int, b: int)
    requires n <= |s|
  {
    && 0 <= a < b <= n
    && (forall i :: a <= i < b ==> Alnum(s[i]))
    && (a == 0 || !Alnum(s[a - 1]))
    && (b == n || !Alnum(s[b]))
  }

  datatype Span = Span(start: int, end: int)

  /** Where the tokens lie. */
  ghost function SpansTo(s: string, n: nat): (sp: seq<Span>)
    requires n <= |s|
    ensures InToken(s, n) ==> sp != []
  {
    if n == 0 then []
    else
      var sp := SpansTo(s, n - 1);
      if !Alnum(s[n - 1]) then sp
      else if InToken(s, n - 1) then sp[..|sp| - 1] + [Span(sp[|sp| - 1].start, n)]
      else sp + [Span(n - 1, n)]
  }

  ghost predicate RunsInOrder(s: string, n: nat, sp: seq<Span>)
    requires n <= |s|
  {
    && (forall i :: 0 <= i < |sp| ==> IsRun(s, n, sp[i].start, sp[i].end))
    && (forall i, j :: 0 <= i < j < |sp| ==> sp[i].end < sp[j].start)
    && (InToken(s, n) ==> sp != [] && sp[|sp| - 1].end == n)
  }

  lemma {:induction false} SpansAreRuns(s: string, n: nat)
    requires n <= |s|
    ensures RunsInOrder(s, n, SpansTo(s, n))
  {
    if n > 0 {
      SpansAreRuns(s, n - 1);
      NextRuns(s, n - 1, SpansTo(s, n - 1));
    }
  }

  ghost function NextSpans(s: string, n: nat, sp: seq<Span>): seq<Span>
    requires n < |s| && (InToken(s, n) ==> sp != [])
  {
    if !Alnum(s[n]) then sp
    else if InToken(s, n) then sp[..|sp| - 1] + [Span(sp[|sp| - 1].start, n + 1)]
    else sp + [Span(n, n + 1)]
  }

  lemma NextRuns(s: string, n: nat, sp: seq<Span>)
    requires n < |s| && RunsInOrder(s, n, sp)
    ensures RunsInOrder(s, n + 1, NextSpans(s, n, sp))
  {
    var sp' := NextSpans(s, n, sp);
    forall i | 0 <= i < |sp'|
      ensures IsRun(s, n + 1, sp'[i].start, sp'[i].end)
      ensures i < |sp'| - 1 ==> sp'[i].end < sp'[|sp'| - 1].start
    {
      NextRun(s, n, sp, i);
    }
    hide IsRun;
    forall i, j | 0 <= i < j < |sp'|
      ensures sp'[i].end < sp'[j].start
    {
      if j < |sp'| - 1 {
        assert sp'[i] == sp[i] && sp'[j] == sp[j];
      }
    }
  }

  lemma NextRun(s: string, n: nat, sp: seq<Span>, i: nat)
    requires n < |s| && (InToken(s, n) ==> sp != []) && RunsInOrder(s, n, sp) && i < |NextSpans(s, n, sp)|
    ensures var sp' := NextSpans(s, n, sp);
            && IsRun(s, n + 1, sp'[i].start, sp'[i].end)
            && (i < |sp'| - 1 ==> sp'[i].end < sp'[|sp'| - 1].start)
  {
    hide IsRun, RunsInOrder;
    if i < |sp| {
      RunAt(s, n, sp, i);
    }
    if !Alnum(s[n]) {
      RunBeforeSeparator(s, n, sp[i].start, sp[i].end);
    } else if InToken(s, n) {
      RunBeforeGrown(s, n, sp, i);
    } else if i < |sp| {
      RunEndsEarlier(s, n, sp[i].start, sp[i].end);
    } else {
      RunStarts(s, n);
    }
  }

  /** What is known of the run at one place, and of its place before the last. */
  lemma RunAt(s: string, n: nat, sp: seq<Span>, i: nat)
    requires n <= |s| && RunsInOrder(s, n, sp) && i < |sp|
    ensures IsRun(s, n, sp[i].start, sp[i].end)
    ensures i < |sp| - 1 ==> sp[i].end < sp[|sp| - 1].start
  {
    hide IsRun;
  }

  lemma RunStarts(s: string, n: nat)
    requires n < |s| && Alnum(s[n]) && !InToken(s, n)
    ensures IsRun(s, n + 1, n, n + 1)
  {
  }

  lemma RunBeforeSeparator(s: string, n: nat, a: int, b: int)
    requires n < |s| && IsRun(s, n, a, b) && !Alnum(s[n])
    ensures IsRun(s, n + 1, a, b)
  {
  }

  lemma RunEndsEarlier(s: string, n: nat, a: int, b: int)
    requires n < |s| && IsRun(s, n, a, b) && (b < n || !InToken(s, n))
    ensures b < n && IsRun(s, n + 1, a, b)
  {
    assert Alnum(s[b - 1]);
  }

  lemma RunGrows(s: string, n: nat, a: int)
    requires n < |s| && IsRun(s, n, a, n) && Alnum(s[n])
    ensures IsRun(s, n + 1, a, n + 1)
  {
  }

  lemma RunBeforeGrown(s: string, n: nat, sp: seq<Span>, i: nat)
    requires n < |s| && RunsInOrder(s, n, sp) && Alnum(s[n]) && InToken(s, n) && i < |sp|
    ensures var sp' := NextSpans(s, n, sp);
            && |sp'| == |sp| && IsRun(s, n + 1, sp'[i].start, sp'[i].end)
            && (i < |sp'| - 1 ==> sp'[i].end < sp'[|sp'| - 1].start)
  {
    var last := sp[|sp| - 1];
    assert last.end == n;
    hide IsRun, RunsInOrder;
    RunAt(s, n, sp, i);
    RunAt(s, n, sp, |sp| - 1);
    if i < |sp| - 1 {
      assert last.start < n by { RunIsNonEmpty(s, n, last.start, last.end); }
      RunEndsEarlier(s, n, sp[i].start, sp[i].end);
    } else {
      RunGrows(s, n, last.start);
    }
  }

  lemma RunIsNonEmpty(s: string, n: nat, a: int, b: int)
    requires n <= |s| && IsRun(s, n, a, b)
    ensures 0 <= a < b <= n
  {
  }

  /** Each token is the text of its span. */
  lemma {:induction false} TokensAreSpans(s: string, n: nat, i: nat)
    requires n <= |s| && i < |SpansTo(s, n)|
    ensures |SplitTo(s, n)| == |SpansTo(s, n)|
    ensures var sp := SpansTo(s, n)[i];
            0 <= sp.start < sp.end <= n && SplitTo(s, n)[i] == s[sp.start..sp.end]
  {
    SameCount(s, n);
    SameCount(s, n - 1);
    SpansAreRuns(s, n - 1);
    hide IsRun, RunsInOrder;
    if Alnum(s[n - 1]) && i == |SpansTo(s, n)| - 1 {
      if i < |SpansTo(s, n - 1)| {
        TokensAreSpans(s, n - 1, i);
      }
      LastToken(s, n, i);
    } else {
      TokensAreSpans(s, n - 1, i);
    }
  }

  lemma {:induction false} SameCount(s: string, n: nat)
    requires n <= |s|
    ensures |SplitTo(s, n)| == |SpansTo(s, n)|
  {
    if n > 0 {
      SameCount(s, n - 1);
    }
  }

  lemma LastToken(s: string, n: nat, i: nat)
    requires 0 < n <= |s| && Alnum(s[n - 1]) && i == |SpansTo(s, n)| - 1 == |SplitTo(s, n)| - 1
    requires RunsInOrder(s, n - 1, SpansTo(s, n - 1)) && |SplitTo(s, n - 1)| == |SpansTo(s, n - 1)|
    requires i < |SpansTo(s, n - 1)| ==>
               var sp := SpansTo(s, n - 1)[i];
               0 <= sp.start < sp.end <= n - 1 && SplitTo(s, n - 1)[i] == s[sp.start..sp.end]
    ensures var sp := SpansTo(s, n)[i];
            0 <= sp.start < sp.end <= n && SplitTo(s, n)[i] == s[sp.start..sp.end]
  {
    hide IsRun;
    if InToken(s, n - 1) {
      var before := SpansTo(s, n - 1)[i];
      assert before.end == n - 1;
      assert SpansTo(s, n)[i] == Span(before.start, n);
      assert SplitTo(s, n)[i] == SplitTo(s, n - 1)[i] + [s[n - 1]];
      OneMoreChar(s, before.start, n - 1);
    } else {
      assert SpansTo(s, n)[i] == Span(n - 1, n);
    }
  }

  lemma OneMoreChar(s: string, a: nat, b: nat)
    requires a <= b < |s|
    ensures s[a..b + 1] == s[a..b] + [s[b]]
  {
  }

  lemma OnlyLastReachesEnd(s: string, n: nat, sp: seq<Span>, i: nat)
    requires n <= |s| && RunsInOrder(s, n, sp) && i < |sp| && sp[i].end == n
    ensures i == |sp| - 1
  {
    var last := sp[|sp| - 1];
    assert IsRun(s, n, last.start, last.end);
  }

  /** No run is missed. */
  lemma {:induction false} EveryRunIsASpan(s: string, n: nat, a: int, b: int) returns (i: nat)
    requires n <= |s| && IsRun(s, n, a, b)
    ensures i < |SpansTo(s, n)| && SpansTo(s, n)[i] == Span(a, b)
  {
    SpansAreRuns(s, n - 1);
    var sp := SpansTo(s, n - 1);
    assert SpansTo(s, n) == NextSpans(s, n - 1, sp);
    hide SpansTo;
    if b < n {
      i := EveryRunIsASpan(s, n - 1, a, b);
      EarlierRun(s, n - 1, sp, i);
    } else if a < n - 1 {
      i := EveryRunIsASpan(s, n - 1, a, n - 1);
      GrownRun(s, n - 1, sp, i);
    } else {
      i := |sp|;
    }
  }

  lemma EarlierRun(s: string, n: nat, sp: seq<Span>, i: nat)
    requires n < |s| && RunsInOrder(s, n, sp) && i < |sp| && IsRun(s, n + 1, sp[i].start, sp[i].end)
    ensures i < |NextSpans(s, n, sp)| && NextSpans(s, n, sp)[i] == sp[i]
  {
    assert sp[i].end <= n && (sp[i].end == n ==> !Alnum(s[n])) by {
      assert IsRun(s, n, sp[i].start, sp[i].end);
    }
    assert InToken(s, n) ==> sp[|sp| - 1].end == n;
    hide IsRun, RunsInOrder;
    if Alnum(s[n]) && InToken(s, n) {
      assert i < |sp| - 1;
    }
  }

  lemma GrownRun(s: string, n: nat, sp: seq<Span>, i: nat)
    requires n < |s| && RunsInOrder(s, n, sp) && i < |sp| && sp[i].end == n && Alnum(s[n])
    ensures i < |NextSpans(s, n, sp)| && NextSpans(s, n, sp)[i] == Span(sp[i].start, n + 1)
  {
    assert IsRun(s, n, sp[i].start, n);
    OnlyLastReachesEnd(s, n, sp, i);
  }

  /** A text's tokens are exactly its maximal runs of letters and digits. */
  lemma TokensAreMaximalRuns(s: string, t: string)
    ensures t in Split(s) <==> exists a, b :: IsRun(s, |s|, a, b) && s[a..b] == t
  {
    SpansAreRuns(s, |s|);
    SameCount(s, |s|);
    if t in Split(s) {
      var i :| 0 <= i < |Split(s)| && Split(s)[i] == t;
      TokensAreSpans(s, |s|, i);
      assert IsRun(s, |s|, SpansTo(s, |s|)[i].start, SpansTo(s, |s|)[i].end);
    }
    if a, b :| IsRun(s, |s|, a, b) && s[a..b] == t {
      var i := EveryRunIsASpan(s, |s|, a, b);
      TokensAreSpans(s, |s|, i);
    }
  }

  // ----- Splitting undoes joining -----

  ghost predicate IsToken(t: string)
  {
    t != "" && forall i :: 0 <= i < |t| ==> Alnum(t[i])
  }

  /** The tokens with one space between neighbours. */
  ghost function Join(ts: seq<string>): string
  {
    if ts == [] then ""
    else if |ts| == 1 then ts[0]
    else Join(ts[..|ts| - 1]) + " " + ts[|ts| - 1]
  }

  lemma {:induction false} SplitOfPrefix(s: string, t: string, n: nat)
    requires n <= |s|
    ensures SplitTo(s + t, n) == SplitTo(s, n)
  {
    if n > 0 {
      SplitOfPrefix(s, t, n - 1);
    }
  }

  lemma {:induction false} SplitAppended(s: string, t: string, k: nat)
    requires IsToken(t) && !InToken(s, |s|) && 0 < k <= |t|
    ensures SplitTo(s + t, |s| + k) == Split(s) + [t[..k]]
  {
    hide SplitTo, Split, IsToken, InToken;
    if k == 1 {
      FirstChar(s, t);
    } else {
      SplitAppended(s, t, k - 1);
      NextChar(s, t, k - 1);
    }
  }

  lemma FirstChar(s: string, t: string)
    requires IsToken(t) && !InToken(s, |s|)
    ensures SplitTo(s + t, |s| + 1) == Split(s) + [t[..1]]
  {
    var u := s + t;
    assert u[|s|] == t[0];
    SplitStep(u, |s|);
    SplitOfPrefix(s, t, |s|);
    assert InToken(u, |s|) <==> InToken(s, |s|);
    assert t[..1] == [t[0]];
  }

  lemma NextChar(s: string, t: string, k: nat)
    requires IsToken(t) && 0 < k < |t| && SplitTo(s + t, |s| + k) == Split(s) + [t[..k]]
    ensures SplitTo(s + t, |s| + k + 1) == Split(s) + [t[..k + 1]]
  {
    var u, n := s + t, |s| + k;
    assert u[n] == t[k] && u[n - 1] == t[k - 1];
    assert Alnum(u[n]) && InToken(u, n);
    hide SplitTo, Split, IsToken, InToken;
    SplitStep(u, n);
    Grow(SplitTo(u, n), Split(s), t[..k], t[k]);
    OneMoreChar(t, 0, k);
  }

  lemma SplitStep(s: string, n: nat)
    requires n < |s|
    ensures var ts := SplitTo(s, n);
            SplitTo(s, n + 1) == if !Alnum(s[n]) then ts
                                 else if InToken(s, n) then ts[..|ts| - 1] + [ts[|ts| - 1] + [s[n]]]
                                 else ts + [[s[n]]]
  {
  }

  /** Tokens joined by spaces are split into the same tokens. */
  lemma {:induction false} SplitJoin(ts: seq<string>)
    requires forall i :: 0 <= i < |ts| ==> IsToken(ts[i])
    ensures Split(Join(ts)) == ts
  {
    if |ts| == 1 {
      SplitOne(ts[0]);
      assert ts == [ts[0]];
    } else if ts != [] {
      var init, t := ts[..|ts| - 1], ts[|ts| - 1];
      SplitJoin(init);
      assert ts == init + [t];
      SplitOneMore(Join(init), t);
    }
  }

  lemma SplitOne(t: string)
    requires IsToken(t)
    ensures Split(t) == [t]
  {
    SplitAppended("", t, |t|);
    assert "" + t == t && t[..|t|] == t;
  }

  lemma SplitOneMore(j: string, t: string)
    requires IsToken(t)
    ensures Split(j + " " + t) == Split(j) + [t]
  {
    SplitAfterSpace(j);
    assert |t| > 0 && |j + " "| == |j| + 1;
    hide SplitTo, IsToken;
    SplitAppended(j + " ", t, |t|);
    assert t[..|t|] == t;
  }

  lemma SplitAfterSpace(j: string)
    ensures Split(j + " ") == Split(j) && !InToken(j + " ", |j| + 1)
  {
    SplitOfPrefix(j, " ", |j|);
  }

  // ----- The loop -----

  /** A builder for the current token, flushed at every separator and at the end of the lower-cased text. */
  method SplitTokens(text: string, lower: string -> string) returns (out: seq<string>)
    ensures out == Split(lower(text))
  {
    var s := lower(text);
    out := [];
    var cur := "";
    for i := 0 to |s|
      invariant cur != "" <==> InToken(s, i)
      invariant SplitTo(s, i) == if cur != "" then out + [cur] else out
    {
      var r := s[i];
      SplitStep(s, i);
      Grow(out + [cur], out, cur, r);
      assert "" + [r] == [r];
      hide SplitTo;
      if Alnum(r) {
        cur := cur + [r];
      } else if |cur| > 0 {
        out := out + [cur];
        cur := "";
      }
    }
    if |cur| > 0 {
      out := out + [cur];
    }
  }

  // ----- Keyword score -----

  /** `t` occurs in `c`. */
  predicate Contains(c: string, t: string)
  {
    exists i :: 0 <= i <= |c| && OccursAt(c, t, i)
  }

  predicate OccursAt(c: string, t: string, i: nat)
    requires i <= |c|
  {
    i + |t| <= |c| && c[i..i + |t|] == t
  }

  /** To occur is to be cut out by what comes before and after. */
  lemma ContainsIff(c: string, t: string)
    ensures Contains(c, t) <==> exists before, after :: c == before + t + after
  {
    if i :| 0 <= i <= |c| && OccursAt(c, t, i) {
      assert c == c[..i] + t + c[i + |t|..];
    }
    if before, after :| c == before + t + after {
      assert OccursAt(c, t, |before|);
    }
  }

  ghost function SetOf(ts: seq<string>): set<string>
  {
    set t | t in ts
  }

  /** The distinct tokens of a query. It is lower-cased by the score and again by the splitter. */
  ghost function QueryTokens(query: string, lower: string -> string): set<string>
  {
    SetOf(Split(lower(lower(query))))
  }

  ghost function Found(tokens: set<string>, content: string): set<string>
  {
    set t | t in tokens && Contains(content, t)
  }

  /** The fraction of `tokens` that occur in the content; zero when there are none. */
  ghost function FoundFraction(tokens: set<string>, content: string): (f: real)
    ensures 0.0 <= f <= 1.0
  {
    if |tokens| == 0 then 0.0
    else
      FoundFits(tokens, content);
      |Found(tokens, content)| as real / |tokens| as real
  }

  ghost function KeywordFraction(query: string, content: string, lower: string -> string): (f: real)
    ensures 0.0 <= f <= 1.0
  {
    FoundFraction(QueryTokens(query, lower), lower(content))
  }

  /** The fraction of the query's distinct tokens that occur in the content. */
  method KeywordScore(query: string, content: string, lower: string -> string) returns (score: real)
    ensures score == KeywordFraction(query, content, lower) && 0.0 <= score <= 1.0
  {
    var q := lower(query);
    var c := lower(content);
    var tokens := SplitTokens(q, lower);
    hide Split;
    if |tokens| == 0 {
      assert QueryTokens(query, lower) == {};
      return 0.0;
    }
    var hits := 0;
    var seen: set<string> := {};
    for i := 0 to |tokens|
      invariant seen == SetOf(tokens[..i])
      invariant hits == |Found(seen, c)|
    {
      var t := tokens[i];
      assert tokens[..i + 1] == tokens[..i] + [t];
      if t !in seen {
        FoundNext(seen, t, c);
        seen := seen + {t};
        if Contains(c, t) {
          hits := hits + 1;
        }
      }
    }
    assert tokens[..|tokens|] == tokens;
    assert seen == QueryTokens(query, lower);
    assert tokens[0] in seen;
    score := hits as real / |seen| as real;
  }

  lemma FoundNext(seen: set<string>, t: string, content: string)
    requires t !in seen
    ensures |Found(seen + {t}, content)| == |Found(seen, content)| + (if Contains(content, t) then 1 else 0)
  {
    if Contains(content, t) {
      assert Found(seen + {t}, content) == Found(seen, content) + {t};
    } else {
      assert Found(seen + {t}, content) == Found(seen, content);
    }
  }

  lemma FoundFits(tokens: set<string>, content: string)
    requires tokens != {}
    ensures |tokens| > 0 && 0.0 <= |Found(tokens, content)| as real / |tokens| as real <= 1.0
  {
    var found := Found(tokens, content);
    assert tokens == found + (tokens - found);
    Fraction(|found|, |tokens|);
  }

  /** The score is one exactly when every token is found, zero exactly when none is, and the fraction in between. */
  lemma KeywordScoreIs(query: string, content: string, lower: string -> string)
    ensures var tokens := set t | t in Split(lower(lower(query)));
            var found := set t | t in tokens && Contains(lower(content), t);
            var f := KeywordFraction(query, content, lower);
            && (tokens == {} ==> f == 0.0)
            && f * (|tokens| as real) == |found| as real
            && (f == 1.0 <==> tokens != {} && forall t :: t in tokens ==> Contains(lower(content), t))
            && (f == 0.0 <==> forall t :: t in tokens ==> !Contains(lower(content), t))
  {
    var tokens := QueryTokens(query, lower);
    var found := Found(tokens, lower(content));
    assert tokens == set t | t in Split(lower(lower(query)));
    assert found == set t | t in tokens && Contains(lower(content), t);
    assert forall t :: t in found <==> t in tokens && Contains(lower(content), t);
    hide Split, Contains, Found, QueryTokens;
    if tokens == {} {
      assert found == {};
    } else {
      PartOf(found, tokens);
      WholeFraction(|found|, |tokens|);
    }
  }

  lemma PartOf(part: set<string>, whole: set<string>)
    requires part <= whole && whole != {}
    ensures |part| <= |whole| && |whole| > 0
    ensures |part| == |whole| <==> part == whole
    ensures |part| == 0 <==> part == {}
  {
    assert whole == part + (whole - part);
    assert |whole| == |part| + |whole - part|;
  }

  lemma WholeFraction(h: nat, n: nat)
    requires n > 0 && h <= n
    ensures var f := h as real / n as real;
            f * (n as real) == h as real && (f == 1.0 <==> h == n) && (f == 0.0 <==> h == 0)
  {
    var x, y := h as real, n as real;
    var f := x / y;
    assert f * y == x;
    NoneOrAll(f, y);
  }

  lemma NoneOrAll(f: real, y: real)
    requires y > 0.0
    ensures (f * y == y <==> f == 1.0) && (f * y == 0.0 <==> f == 0.0)
  {
    if f * y == y {
      assert (f - 1.0) * y == 0.0;
    }
  }

  /** The score depends on the query only through its set of tokens: their order and repeats do not matter. */
  lemma SameTokensSameScore(ts: seq<string>, ts': seq<string>, content: string, lower: string -> string)
    requires forall i :: 0 <= i < |ts| ==> IsToken(ts[i])
    requires forall i :: 0 <= i < |ts'| ==> IsToken(ts'[i])
    requires lower(lower(Join(ts))) == Join(ts) && lower(lower(Join(ts'))) == Join(ts')
    requires SetOf(ts) == SetOf(ts')
    ensures KeywordFraction(Join(ts), content, lower) == KeywordFraction(Join(ts'), content, lower)
    ensures KeywordFraction(Join(ts), content, lower) == FoundFraction(SetOf(ts), lower(content))
  {
    hide Split, Join, FoundFraction;
    SplitJoin(ts);
    SplitJoin(ts');
  }

  // ----- Tags -----

  ghost predicate SharesTag(want: seq<string>, have: seq<string>, lower: string -> string)
  {
    exists i, j :: 0 <= i < |want| && 0 <= j < |have| && lower(want[i]) == lower(have[j])
  }

  method AnyTagMatches(want: seq<string>, have: seq<string>, lower: string -> string) returns (r: bool)
    ensures r <==> SharesTag(want, have, lower)
  {
    var wantLower := set i | 0 <= i < |want| :: lower(want[i]);
    for j := 0 to |have|
      invariant forall i, k :: 0 <= i < |want| && 0 <= k < j ==> lower(want[i]) != lower(have[k])
    {
      if lower(have[j]) in wantLower {
        return true;
      }
    }
    r := false;
  }

  ghost predicate HasTag(tag: string, have: seq<string>, lower: string -> string)
  {
    exists j :: 0 <= j < |have| && lower(tag) == lower(have[j])
  }

  /** How many of the wanted tags, repeats included, the item has. */
  ghost function Shared(want: seq<string>, have: seq<string>, lower: string -> string): (n: nat)
    ensures n <= |want|
  {
    if want == [] then 0
    else Shared(want[..|want| - 1], have, lower) + (if HasTag(want[|want| - 1], have, lower) then 1 else 0)
  }

  lemma {:induction false} SharedIffShares(want: seq<string>, have: seq<string>, lower: string -> string)
    ensures Shared(want, have, lower) > 0 <==> SharesTag(want, have, lower)
  {
    if want != [] {
      var init, last := want[..|want| - 1], want[|want| - 1];
      SharedIffShares(init, have, lower);
      if i, j :| 0 <= i < |init| && 0 <= j < |have| && lower(init[i]) == lower(have[j]) {
        assert want[i] == init[i];
      }
      if i, j :| 0 <= i < |want| && 0 <= j < |have| && lower(want[i]) == lower(have[j]) {
        assert i < |init| ==> init[i] == want[i];
      }
      if j :| 0 <= j < |have| && lower(last) == lower(have[j]) {
        assert want[|want| - 1] == last;
      }
    }
  }

  /** The places of the wanted tags that the item has. */
  ghost function SharedPlaces(want: seq<string>, have: seq<string>, lower: string -> string): set<int>
  {
    set i | 0 <= i < |want| && HasTag(want[i], have, lower)
  }

  lemma NextSharedPlace(want: seq<string>, have: seq<string>, lower: string -> string)
    requires want != []
    ensures var n := |want| - 1;
            |SharedPlaces(want, have, lower)| ==
            |SharedPlaces(want[..n], have, lower)| + if HasTag(want[n], have, lower) then 1 else 0
  {
    var n := |want| - 1;
    var before, here := SharedPlaces(want[..n], have, lower), SharedPlaces(want, have, lower);
    assert n !in before;
    forall i
      ensures i in here <==> i in before || (i == n && HasTag(want[n], have, lower))
    {
      hide HasTag;
    }
    hide SharedPlaces, HasTag;
    assert here == before + if HasTag(want[n], have, lower) then {n} else {};
  }

  /** Every place of the wanted list counts on its own. */
  lemma {:induction false} SharedCounts(want: seq<string>, have: seq<string>, lower: string -> string)
    ensures Shared(want, have, lower) == |SharedPlaces(want, have, lower)|
  {
    hide HasTag;
    if want == [] {
      assert SharedPlaces(want, have, lower) == {};
    } else {
      SharedCounts(want[..|want| - 1], have, lower);
      NextSharedPlace(want, have, lower);
    }
  }

  /** The overlap is the number of wanted tags the item has over the number of wanted tags. */
  lemma OverlapIs(want: seq<string>, have: seq<string>, lower: string -> string)
    ensures OverlapFraction(want, have, lower) * (|want| as real) == Shared(want, have, lower) as real
  {
    if want != [] {
      WholeFraction(Shared(want, have, lower), |want|);
    }
  }

  ghost function OverlapFraction(want: seq<string>, have: seq<string>, lower: string -> string): (f: real)
    ensures 0.0 <= f <= 1.0
    ensures f > 0.0 <==> Shared(want, have, lower) > 0
  {
    if want == [] then 0.0
    else
      Fraction(Shared(want, have, lower), |want|);
      Shared(want, have, lower) as real / |want| as real
  }

  /** The fraction of wanted tags an item has: positive exactly when the two share a tag. */
  method TagOverlap(want: seq<string>, have: seq<string>, lower: string -> string) returns (score: real)
    ensures score == OverlapFraction(want, have, lower) && 0.0 <= score <= 1.0
    ensures score > 0.0 <==> SharesTag(want, have, lower)
  {
    SharedIffShares(want, have, lower);
    if |want| == 0 {
      return 0.0;
    }
    var haveLower := set j | 0 <= j < |have| :: lower(have[j]);
    var hits := 0;
    for i := 0 to |want|
      invariant hits == Shared(want[..i], have, lower)
    {
      assert want[..i + 1][..i] == want[..i];
      if lower(want[i]) in haveLower {
        hits := hits + 1;
      }
    }
    assert want[..|want|] == want;
    score := hits as real / |want| as real;
  }

  lemma Fraction(h: nat, n: nat)
    requires n > 0 && h <= n
    ensures 0.0 <= h as real / n as real <= 1.0
    ensures h as real / n as real > 0.0 <==> h > 0
  {
    var x, y := h as real, n as real;
    var t := x / y;
    assert t * y == x;
    assert (1.0 - t) * y == y - x;
  }
}
