// Relevance of one entry to a query (`_calculate_relevance_score`) and the
// result snippet (`_generate_snippet`): the window around the first
// case-insensitive occurrence of the query, then the highlighting of each
// query term.

module Ranking {
  import opened PyText
  import opened OrderedMaps
  import opened Tokenizer
  import opened Entries

  // ---------------------------------------------------------------------
  // Score

  /** `set(query_tokens) & set(doc['tokens'])`, listed in query order. */
  function Matched(qs: seq<string>, tokens: seq<string>): (r: seq<string>)
    ensures forall t :: t in r <==> t in qs && t in tokens
    ensures Unique(qs) ==> Unique(r)
    ensures |r| <= |qs|
  {
    if qs == [] then []
    else (if qs[0] in tokens then [qs[0]] else []) + Matched(qs[1..], tokens)
  }

  /** The term-frequency part: the count of each matched term over the
      token count (0 for an empty document or a term missing from the table). */
  function TermFrequency(ms: seq<string>, e: Entry): (r: real)
    ensures r >= 0.0
  {
    if ms == [] then 0.0
    else
      var tf := match Get(e.invertedIndex, ms[0])
        case Some(c) => if e.tokenCount > 0 then c as real / e.tokenCount as real else 0.0
        case None => 0.0;
      tf + TermFrequency(ms[1..], e)
  }

  /** The length normalisation `1 / (1 + token_count / 1000)`: shorter
      documents weigh more, and the factor lies in (0, 1]. */
  function LengthNorm(n: nat): (r: real)
    ensures 0.0 < r <= 1.0
  {
    1.0 / (1.0 + n as real / 1000.0)
  }

  /** The base score: the share m of the q distinct query terms found. */
  function Coverage(m: nat, q: nat): (r: real)
    requires 0 < q && m <= q
    ensures 0.0 <= r <= 1.0
    ensures r > 0.0 <==> m > 0
  {
    m as real / q as real
  }

  /** `_calculate_relevance_score`. */
  function Score(queryTokens: seq<string>, e: Entry): real
  {
    if queryTokens == [] then 0.0
    else
      var qs := Dedup(queryTokens);
      assert queryTokens[0] in qs;
      var ms := Matched(qs, e.tokens);
      Weighted(Coverage(|ms|, |qs|), TermFrequency(ms, e), LengthNorm(e.tokenCount))
  }

  /** `(base_score * 0.6 + term_frequency_score * 0.4) * length_normalization`. */
  function Weighted(coverage: real, tf: real, norm: real): real
  {
    (coverage * 0.6 + tf * 0.4) * norm
  }

  lemma ScoreUnfold(queryTokens: seq<string>, e: Entry)
    requires queryTokens != []
    ensures var qs := Dedup(queryTokens); var ms := Matched(qs, e.tokens);
      |qs| > 0 && Score(queryTokens, e) == Weighted(Coverage(|ms|, |qs|), TermFrequency(ms, e), LengthNorm(e.tokenCount))
  {
    assert queryTokens[0] in Dedup(queryTokens);
  }

  lemma WeightedSign(coverage: real, tf: real, norm: real)
    requires coverage >= 0.0 && tf >= 0.0 && norm > 0.0
    ensures Weighted(coverage, tf, norm) >= 0.0
    ensures Weighted(coverage, tf, norm) > 0.0 <==> coverage > 0.0 || tf > 0.0
  {
    var x := coverage * 0.6 + tf * 0.4;
    if x > 0.0 {
      assert x * norm > 0.0;
    } else {
      assert x == 0.0;
    }
  }

  lemma NonNegativeProduct(a: real, b: real)
    requires a >= 0.0 && b >= 0.0
    ensures a * b >= 0.0
  {
  }

  lemma WeightedAtMostOne(coverage: real, tf: real, norm: real)
    requires 0.0 <= coverage <= 1.0 && 0.0 <= tf <= 1.0 && 0.0 < norm <= 1.0
    ensures Weighted(coverage, tf, norm) <= 1.0
  {
    var x := coverage * 0.6 + tf * 0.4;
    assert 1.0 - x >= 0.0;
    NonNegativeProduct(1.0 - x, norm);
    assert norm - x * norm == (1.0 - x) * norm;
  }

  /** A document scores above zero exactly when it contains a query term;
      the score is never negative. */
  lemma ScorePositive(queryTokens: seq<string>, e: Entry)
    ensures Score(queryTokens, e) >= 0.0
    ensures Score(queryTokens, e) > 0.0 <==> exists t :: t in queryTokens && t in e.tokens
  {
    if queryTokens != [] {
      ScoreUnfold(queryTokens, e);
      var qs := Dedup(queryTokens);
      var ms := Matched(qs, e.tokens);
      WeightedSign(Coverage(|ms|, |qs|), TermFrequency(ms, e), LengthNorm(e.tokenCount));
      if exists t :: t in queryTokens && t in e.tokens {
        var t :| t in queryTokens && t in e.tokens;
        assert t in ms;
      } else {
        assert ms == [];
      }
    }
  }

  /** The number of occurrences of x in s. */
  function Occ(s: seq<string>, x: string): nat
  {
    if s == [] then 0 else (if s[0] == x then 1 else 0) + Occ(s[1..], x)
  }

  /** The elements of s other than x. */
  function Without(s: seq<string>, x: string): (r: seq<string>)
    ensures |r| + Occ(s, x) == |s|
  {
    if s == [] then [] else (if s[0] == x then [] else [s[0]]) + Without(s[1..], x)
  }

  lemma {:induction false} WithoutOcc(s: seq<string>, x: string, y: string)
    requires y != x
    ensures Occ(Without(s, x), y) == Occ(s, y)
  {
    if s != [] {
      WithoutOcc(s[1..], x, y);
      var r := Without(s, x);
      if s[0] != x {
        assert r == [s[0]] + Without(s[1..], x);
        assert r[0] == s[0] && r[1..] == Without(s[1..], x);
      } else {
        assert r == Without(s[1..], x);
      }
    }
  }

  lemma {:induction false} OccIsMultiplicity(s: seq<string>, x: string)
    ensures Occ(s, x) == multiset(s)[x]
  {
    if s != [] {
      OccIsMultiplicity(s[1..], x);
      assert s == [s[0]] + s[1..];
    }
  }

  /** The total number of occurrences in s of the terms of ms. */
  function OccSum(ms: seq<string>, s: seq<string>): nat
  {
    if ms == [] then 0 else Occ(s, ms[0]) + OccSum(ms[1..], s)
  }

  lemma {:induction false} OccSumWithout(ms: seq<string>, s: seq<string>, x: string)
    requires x !in ms
    ensures OccSum(ms, Without(s, x)) == OccSum(ms, s)
  {
    if ms != [] {
      WithoutOcc(s, x, ms[0]);
      OccSumWithout(ms[1..], s, x);
    }
  }

  /** Distinct terms never occur more often in total than s is long. */
  lemma {:induction false} OccSumBound(ms: seq<string>, s: seq<string>)
    requires Unique(ms)
    ensures OccSum(ms, s) <= |s|
  {
    if ms != [] {
      var x := ms[0];
      assert Unique(ms[1..]);
      assert x !in ms[1..];
      OccSumWithout(ms[1..], s, x);
      OccSumBound(ms[1..], Without(s, x));
    }
  }

  /** The inverted index of an entry `build_index` made stores under each of
      its terms the number of occurrences of that term. */
  lemma ValidLookup(e: Entry, t: string)
    requires EntryValid(e) && t in e.tokens
    ensures Get(e.invertedIndex, t) == Some(Occ(e.tokens, t))
  {
    ValidCounts(e);
    OccIsMultiplicity(e.tokens, t);
    assert t in Keys(e.invertedIndex);
  }

  lemma SumOfQuotients(a: nat, b: nat, t: nat, n: real)
    requires n > 0.0 && t == a + b
    ensures a as real / n + b as real / n == t as real / n
  {
    assert t as real == a as real + b as real;
  }

  /** For a valid entry the term frequency is the matched occurrences over the token count. */
  lemma TermFrequencyValid(ms: seq<string>, e: Entry)
    requires EntryValid(e) && e.tokenCount > 0
    requires forall t :: t in ms ==> t in e.tokens
    ensures TermFrequency(ms, e) == OccSum(ms, e.tokens) as real / e.tokenCount as real
  {
    forall t | t in ms
      ensures Get(e.invertedIndex, t) == Some(Occ(e.tokens, t))
    {
      ValidLookup(e, t);
    }
    TermFrequencyShare(ms, e);
  }

  lemma {:induction false} TermFrequencyShare(ms: seq<string>, e: Entry)
    requires e.tokenCount > 0
    requires forall t :: t in ms ==> Get(e.invertedIndex, t) == Some(Occ(e.tokens, t))
    ensures TermFrequency(ms, e) == OccSum(ms, e.tokens) as real / e.tokenCount as real
  {
    if ms != [] {
      assert ms[0] in ms;
      assert forall t :: t in ms[1..] ==> t in ms;
      TermFrequencyShare(ms[1..], e);
      TermFrequencyStep(ms, e);
    }
  }

  lemma TermFrequencyStep(ms: seq<string>, e: Entry)
    requires ms != [] && e.tokenCount > 0
    requires Get(e.invertedIndex, ms[0]) == Some(Occ(e.tokens, ms[0]))
    requires TermFrequency(ms[1..], e) == OccSum(ms[1..], e.tokens) as real / e.tokenCount as real
    ensures TermFrequency(ms, e) == OccSum(ms, e.tokens) as real / e.tokenCount as real
  {
    var n := e.tokenCount as real;
    var c := Occ(e.tokens, ms[0]);
    var rest := OccSum(ms[1..], e.tokens);
    calc {
      TermFrequency(ms, e);
      { TermFrequencyCons(ms, e, c); }
      c as real / n + TermFrequency(ms[1..], e);
      c as real / n + rest as real / n;
      { OccSumCons(ms, e.tokens); SumOfQuotients(c, rest, OccSum(ms, e.tokens), n); }
      OccSum(ms, e.tokens) as real / n;
    }
  }

  lemma OccSumCons(ms: seq<string>, s: seq<string>)
    requires ms != []
    ensures OccSum(ms, s) == Occ(s, ms[0]) + OccSum(ms[1..], s)
  {
  }

  lemma TermFrequencyCons(ms: seq<string>, e: Entry, c: nat)
    requires ms != [] && e.tokenCount > 0 && Get(e.invertedIndex, ms[0]) == Some(c)
    ensures TermFrequency(ms, e) == c as real / e.tokenCount as real + TermFrequency(ms[1..], e)
  {
  }

  lemma QuotientAtMostOne(a: real, n: real)
    requires 0.0 <= a <= n && n > 0.0
    ensures a / n <= 1.0
  {
  }

  /** For distinct terms of a valid entry the term frequencies add up to at most 1. */
  lemma TermFrequencyAtMostOne(ms: seq<string>, e: Entry)
    requires EntryValid(e) && Unique(ms)
    requires forall t :: t in ms ==> t in e.tokens
    ensures TermFrequency(ms, e) <= 1.0
  {
    if e.tokenCount > 0 {
      TermFrequencyValid(ms, e);
      OccSumBound(ms, e.tokens);
      QuotientAtMostOne(OccSum(ms, e.tokens) as real, e.tokenCount as real);
    }
  }

  /** On an entry `build_index` made, the score is at most 1. */
  lemma ScoreAtMostOne(queryTokens: seq<string>, e: Entry)
    requires EntryValid(e)
    ensures Score(queryTokens, e) <= 1.0
  {
    if queryTokens != [] {
      var qs := Dedup(queryTokens);
      assert queryTokens[0] in qs;
      var ms := Matched(qs, e.tokens);
      TermFrequencyAtMostOne(ms, e);
      ScoreUnfold(queryTokens, e);
      WeightedAtMostOne(Coverage(|ms|, |qs|), TermFrequency(ms, e), LengthNorm(e.tokenCount));
    }
  }

  /** A worked case: one query term, found once in a two-token document. */
  lemma ScoreExample()
    ensures Score(["api"], Entry("API", "api.md", "api guide", ["api", "guide"], 2, 0.0, "",
                                 Counts(["api", "guide"]))) == 400.0 / 501.0
  {
    var e := Entry("API", "api.md", "api guide", ["api", "guide"], 2, 0.0, "", Counts(["api", "guide"]));
    assert Dedup(["api"]) == ["api"];
    assert Matched(["api"], e.tokens) == ["api"];
    CountsFacts(e.tokens);
    assert multiset(e.tokens)["api"] == 1;
    assert Count(e.invertedIndex, "api") == 1;
    assert "api" in Keys(e.invertedIndex);
    assert Get(e.invertedIndex, "api") == Some(1);
    assert TermFrequency(["api"], e) == 0.5;
  }

  // ---------------------------------------------------------------------
  // Snippet

  /** "..." where text was cut off. */
  function Ellipsis(cut: bool): string
  {
    if cut then "..." else ""
  }

  /** The text `_generate_snippet` cuts from the content before highlighting
      (`max_length` 200): around the first case-insensitive occurrence of the
      query, or else the start of the content. */
  function Window(query: string, content: string): string
  {
    var pos := Find(Lower(content), Lower(query));
    if pos >= 0 then Around(content, pos, |query|) else Head(content)
  }

  /** Up to 100 characters on each side of the n characters at pos, with
      "..." on each side where the content goes on. */
  function Around(content: string, pos: nat, n: nat): string
    requires pos + n <= |content|
  {
    var start := Max(0, pos - 100);
    var end := Min(|content|, pos + n + 100);
    Ellipsis(start > 0) + content[start..end] + Ellipsis(end < |content|)
  }

  /** The first 200 characters, with "..." when the content is longer. */
  function Head(content: string): string
  {
    SliceTo(content, 200) + Ellipsis(|content| > 200)
  }

  /** a and b are equal ignoring ASCII case. */
  predicate SameCI(a: string, b: string)
  {
    |a| == |b| && (a == [] || (LowerChar(a[0]) == LowerChar(b[0]) && SameCI(a[1..], b[1..])))
  }

  lemma LowerTail(a: string)
    requires a != []
    ensures Lower(a) == [LowerChar(a[0])] + Lower(a[1..])
  {
  }

  lemma {:induction false} SameIsLowerEqual(a: string, b: string)
    ensures SameCI(a, b) <==> Lower(a) == Lower(b)
  {
    if |a| == |b| && a != [] {
      SameIsLowerEqual(a[1..], b[1..]);
      LowerTail(a);
      LowerTail(b);
    }
  }

  /** The query occurs, ignoring ASCII case, in s at i. */
  predicate MatchCI(s: string, p: string, i: int)
  {
    0 <= i && i + |p| <= |s| && SameCI(s[i..i + |p|], p)
  }

  lemma MatchIsOccurrence(s: string, p: string, i: int)
    ensures MatchCI(s, p, i) <==> OccursAt(Lower(s), Lower(p), i)
  {
    if 0 <= i && i + |p| <= |s| {
      LowerSlice(s, i, i + |p|);
      SameIsLowerEqual(s[i..i + |p|], p);
    }
  }

  /** `content.lower().find(query.lower())` is the first case-insensitive occurrence. */
  lemma FindFirstMatch(query: string, content: string, pos: nat)
    requires MatchCI(content, query, pos)
    requires forall j :: 0 <= j < pos ==> !MatchCI(content, query, j)
    ensures Find(Lower(content), Lower(query)) == pos
  {
    MatchIsOccurrence(content, query, pos);
    var f := Find(Lower(content), Lower(query));
    if f >= 0 && f < pos {
      MatchIsOccurrence(content, query, f);
    }
  }

  lemma MatchInSlice(s: string, p: string, i: int, a: int, b: int)
    requires MatchCI(s, p, i) && 0 <= a <= i && i + |p| <= b <= |s|
    ensures MatchCI(s[a..b], p, i - a)
  {
    var w := s[a..b];
    var u := w[i - a..i - a + |p|];
    var v := s[i..i + |p|];
    forall k | 0 <= k < |p| ensures u[k] == v[k] {
      assert w[i - a + k] == s[i + k];
    }
    assert u == v;
  }

  lemma MatchInContext(x: string, m: string, y: string, p: string, i: int)
    requires MatchCI(m, p, i)
    ensures MatchCI(x + m + y, p, |x| + i)
  {
    var w := x + m + y;
    var u := w[|x| + i..|x| + i + |p|];
    var v := m[i..i + |p|];
    forall k | 0 <= k < |p| ensures u[k] == v[k] {
      assert w[|x| + i + k] == m[i + k];
    }
    assert u == v;
  }

  /** The window around an occurrence holds that occurrence, after at most
      100 characters of context and the "..." that marks a cut, and is at
      most 206 characters longer than the query. */
  lemma AroundHoldsMatch(content: string, query: string, pos: nat)
    requires MatchCI(content, query, pos)
    ensures var w := Around(content, pos, |query|);
      MatchCI(w, query, Min(pos, 100) + (if pos > 100 then 3 else 0)) &&
      |w| <= |query| + 206
  {
    var start := Max(0, pos - 100);
    var end := Min(|content|, pos + |query| + 100);
    MatchInSlice(content, query, pos, start, end);
    MatchInContext(Ellipsis(start > 0), content[start..end], Ellipsis(end < |content|), query, pos - start);
  }

  /** With an occurrence, the window is cut around the first one. */
  lemma WindowFound(query: string, content: string, pos: nat)
    requires MatchCI(content, query, pos)
    requires forall j :: 0 <= j < pos ==> !MatchCI(content, query, j)
    ensures Window(query, content) == Around(content, pos, |query|)
  {
    FindFirstMatch(query, content, pos);
  }

  /** Without an occurrence, short content is the window unchanged and long
      content is cut to its first 200 characters followed by "...". */
  lemma WindowNotFound(query: string, content: string)
    requires forall j :: !MatchCI(content, query, j)
    ensures |content| <= 200 ==> Window(query, content) == content
    ensures |content| > 200 ==> Window(query, content) == content[..200] + "..."
  {
    if Find(Lower(content), Lower(query)) >= 0 {
      var f := Find(Lower(content), Lower(query));
      MatchIsOccurrence(content, query, f);
    }
  }

  /** `re.compile(re.escape(p), re.IGNORECASE).sub(rep, s)`: every
      non-overlapping case-insensitive occurrence of p, left to right, is
      replaced by rep (an empty p matches at every position). */
  function ReplaceCI(s: string, p: string, rep: string): string
    decreases |s|
  {
    if p == [] then (if s == [] then rep else rep + [s[0]] + ReplaceCI(s[1..], p, rep))
    else if |s| < |p| then s
    else if MatchCI(s, p, 0) then rep + ReplaceCI(s[|p|..], p, rep)
    else [s[0]] + ReplaceCI(s[1..], p, rep)
  }

  lemma MatchShift(s: string, p: string, j: int)
    requires s != [] && 0 <= j
    ensures MatchCI(s[1..], p, j) <==> MatchCI(s, p, j + 1)
  {
    if 0 <= j && j + |p| <= |s| - 1 {
      assert s[1..][j..j + |p|] == s[j + 1..j + 1 + |p|];
    }
  }

  lemma {:induction false} ReplaceNoMatch(s: string, p: string, rep: string)
    requires p != []
    requires forall j :: !MatchCI(s, p, j)
    ensures ReplaceCI(s, p, rep) == s
    decreases |s|
  {
    if |s| >= |p| {
      assert !MatchCI(s, p, 0);
      forall j ensures !MatchCI(s[1..], p, j) {
        if j >= 0 {
          MatchShift(s, p, j);
        }
      }
      ReplaceNoMatch(s[1..], p, rep);
    }
  }

  lemma {:induction false} ReplaceGrows(s: string, p: string, rep: string)
    requires p != [] && |rep| > |p|
    ensures |ReplaceCI(s, p, rep)| >= |s|
    ensures (exists j :: MatchCI(s, p, j)) ==> |ReplaceCI(s, p, rep)| > |s|
    decreases |s|
  {
    if |s| >= |p| {
      if MatchCI(s, p, 0) {
        ReplaceGrows(s[|p|..], p, rep);
      } else {
        ReplaceGrows(s[1..], p, rep);
        if exists j :: MatchCI(s, p, j) {
          var j :| MatchCI(s, p, j);
          MatchShift(s, p, j - 1);
        }
      }
    }
  }

  /** Replacing by something longer changes the text exactly when the
      pattern occurs in it. */
  lemma ReplaceChanges(s: string, p: string, rep: string)
    requires p != [] && |rep| > |p|
    ensures ReplaceCI(s, p, rep) == s <==> forall j :: !MatchCI(s, p, j)
  {
    ReplaceGrows(s, p, rep);
    if forall j :: !MatchCI(s, p, j) {
      ReplaceNoMatch(s, p, rep);
    }
  }

  /** The highlight markup for one query term. */
  function Mark(t: string): string
  {
    "<mark>" + t + "</mark>"
  }

  /** The highlighting loop of `_generate_snippet`, term after term. */
  function HighlightAll(s: string, ts: seq<string>): string
    decreases |ts|
  {
    if ts == [] then s else HighlightAll(ReplaceCI(s, ts[0], Mark(ts[0])), ts[1..])
  }

  /** A snippet in which no query term occurs is left as it is. */
  lemma {:induction false} HighlightNoMatch(s: string, ts: seq<string>)
    requires forall t :: t in ts ==> t != [] && forall j :: !MatchCI(s, t, j)
    ensures HighlightAll(s, ts) == s
    decreases |ts|
  {
    if ts != [] {
      assert ts[0] in ts;
      assert forall t :: t in ts[1..] ==> t in ts;
      ReplaceNoMatch(s, ts[0], Mark(ts[0]));
      HighlightNoMatch(s, ts[1..]);
    }
  }

  method Highlight(snippet: string, ts: seq<string>) returns (r: string)
    ensures r == HighlightAll(snippet, ts)
  {
    r := snippet;
    var i := 0;
    while i < |ts|
      invariant 0 <= i <= |ts|
      invariant HighlightAll(r, ts[i..]) == HighlightAll(snippet, ts)
    {
      assert ts[i..][1..] == ts[i + 1..];
      r := ReplaceCI(r, ts[i], Mark(ts[i]));
      i := i + 1;
    }
    assert ts[i..] == [];
  }

  lemma SlicesAfterFirst(s: string, k: nat)
    requires 0 < k <= |s|
    ensures s[..k] == [s[0]] + s[1..][..k - 1] && s[1..][k - 1..] == s[k..]
  {
  }

  lemma {:induction false} ReplaceSkip(s: string, p: string, rep: string, k: nat)
    requires p != [] && k + |p| <= |s|
    requires forall j :: 0 <= j < k ==> !MatchCI(s, p, j)
    ensures ReplaceCI(s, p, rep) == s[..k] + ReplaceCI(s[k..], p, rep)
  {
    if k > 0 {
      var t := s[1..];
      forall j | 0 <= j < k - 1 ensures !MatchCI(t, p, j) {
        MatchShift(s, p, j);
      }
      ReplaceSkip(t, p, rep, k - 1);
      SlicesAfterFirst(s, k);
      calc {
        ReplaceCI(s, p, rep);
        { ReplaceHeadKept(s, p, rep); }
        [s[0]] + ReplaceCI(t, p, rep);
        [s[0]] + (t[..k - 1] + ReplaceCI(s[k..], p, rep));
        { Regroup([s[0]], t[..k - 1], ReplaceCI(s[k..], p, rep)); }
        s[..k] + ReplaceCI(s[k..], p, rep);
      }
    } else {
      assert s[..k] == [] && s[k..] == s;
    }
  }

  /** Without a match at the front, the first character is kept. */
  lemma ReplaceHeadKept(s: string, p: string, rep: string)
    requires p != [] && |p| <= |s| && !MatchCI(s, p, 0)
    ensures ReplaceCI(s, p, rep) == [s[0]] + ReplaceCI(s[1..], p, rep)
  {
  }

  /** A window whose first two characters differ from the pattern's, ignoring case, is no match. */
  lemma NoMatchAt(s: string, p: string, j: nat)
    requires j + |p| <= |s| && |p| >= 2
    requires LowerChar(s[j]) != LowerChar(p[0]) || LowerChar(s[j + 1]) != LowerChar(p[1])
    ensures !MatchCI(s, p, j)
  {
    var w := s[j..j + |p|];
    assert w[0] == s[j] && w[1] == s[j + 1];
    SameFirstTwo(w, p);
  }

  /** Strings equal up to case agree, up to case, on their first two characters. */
  lemma SameFirstTwo(a: string, b: string)
    requires |a| >= 2
    ensures SameCI(a, b) ==> LowerChar(a[0]) == LowerChar(b[0]) && LowerChar(a[1]) == LowerChar(b[1])
  {
    if SameCI(a, b) {
      var a', b' := a[1..], b[1..];
      assert SameCI(a', b');
      assert a'[0] == a[1] && b'[0] == b[1];
      assert LowerChar(a'[0]) == LowerChar(b'[0]);
    }
  }

  lemma NoMatchInOpenTag(s: string)
    requires s == Mark("api")
    ensures forall j :: 0 <= j < 6 ==> !MatchCI(s, "api", j)
  {
    assert s[..7] == "<mark>a";
    NoMatchAt(s, "api", 0);
    NoMatchAt(s, "api", 1);
    NoMatchAt(s, "api", 2);
    NoMatchAt(s, "api", 3);
    NoMatchAt(s, "api", 4);
    NoMatchAt(s, "api", 5);
  }

  lemma NoMatchInCloseTag(w: string)
    requires w == "</mark>"
    ensures forall j :: !MatchCI(w, "api", j)
  {
    NoMatchAt(w, "api", 0);
    NoMatchAt(w, "api", 1);
    NoMatchAt(w, "api", 2);
    NoMatchAt(w, "api", 3);
    NoMatchAt(w, "api", 4);
  }

  /** The second pass finds the term again inside the markup the first pass wrote. */
  lemma ReplaceInsideMark()
    ensures ReplaceCI(Mark("api"), "api", Mark("api")) == Mark(Mark("api"))
  {
    var m := Mark("api");
    var close := m[6..][3..];
    assert m[..6] == "<mark>" && close == "</mark>";
    assert MatchCI(m[6..], "api", 0) by {
      assert m[6..][..3] == "api";
      SameCIExample("api", m[6..][..3]);
    }
    calc {
      ReplaceCI(m, "api", m);
      { NoMatchInOpenTag(m); ReplaceSkip(m, "api", m, 6); }
      m[..6] + ReplaceCI(m[6..], "api", m);
      { ReplaceHit(m[6..], "api", m); }
      m[..6] + (m + ReplaceCI(close, "api", m));
      { NoMatchInCloseTag(close); ReplaceNoMatch(close, "api", m); }
      "<mark>" + (m + "</mark>");
      { Regroup("<mark>", m, "</mark>"); }
      Mark(m);
    }
  }

  /** A match at the front is replaced, and the scan resumes after it. */
  lemma ReplaceHit(s: string, p: string, rep: string)
    requires p != [] && MatchCI(s, p, 0)
    ensures ReplaceCI(s, p, rep) == rep + ReplaceCI(s[|p|..], p, rep)
  {
  }

  /** As written, the loop above runs each later term over markup the earlier
      terms inserted, so a repeated query term nests the marks. */
  lemma RepeatedTermNests()
    ensures HighlightAll("api", ["api", "api"]) == Mark(Mark("api"))
  {
    var m := Mark("api");
    SameCIExample("api", "api");
    assert "api"[3..] == [];
    assert ReplaceCI("api", "api", m) == m;
    ReplaceInsideMark();
    assert ["api", "api"][1..] == ["api"];
    assert HighlightAll("api", ["api", "api"]) == HighlightAll(m, ["api"]);
  }

  // The intended highlighting: one pass over the snippet, marking at each
  // position the first query term found there and going on after it, so
  // inserted markup is never scanned again.

  /** A piece of a highlighted snippet: a plain character, or an occurrence w
      of the query term `term`, which the markup writes in the query's case. */
  datatype Piece = Plain(c: char) | Hit(w: string, term: string)

  /** The first query term (in query order) that occurs at the start of s,
      ignoring ASCII case; empty terms never match. */
  function FirstHit(s: string, ts: seq<string>): (r: Option<string>)
    ensures r.Some? ==> r.value in ts && 0 < |r.value| <= |s| && MatchCI(s, r.value, 0)
    ensures r.None? <==> forall t :: t in ts && t != [] ==> !MatchCI(s, t, 0)
  {
    if ts == [] then None
    else if ts[0] != [] && MatchCI(s, ts[0], 0) then Some(ts[0])
    else
      var r := FirstHit(s, ts[1..]);
      assert forall t :: t in ts[1..] ==> t in ts;
      assert forall t :: t in ts ==> t == ts[0] || t in ts[1..];
      r
  }

  function Pieces(s: string, ts: seq<string>): seq<Piece>
    decreases |s|
  {
    if s == [] then []
    else match FirstHit(s, ts)
      case Some(t) => [Hit(s[..|t|], t)] + Pieces(s[|t|..], ts)
      case None => [Plain(s[0])] + Pieces(s[1..], ts)
  }

  /** The text of the pieces, without markup. */
  function Text(ps: seq<Piece>): string
  {
    if ps == [] then [] else PieceText(ps[0]) + Text(ps[1..])
  }

  function PieceText(p: Piece): string
  {
    match p
    case Plain(c) => [c]
    case Hit(w, _) => w
  }

  /** The pieces written out, each occurrence wrapped in `<mark>` tags. */
  function Render(ps: seq<Piece>): string
  {
    if ps == [] then [] else PieceMarkup(ps[0]) + Render(ps[1..])
  }

  function PieceMarkup(p: Piece): string
  {
    match p
    case Plain(c) => [c]
    case Hit(_, t) => Mark(t)
  }

  /** The corrected highlighting: each occurrence is replaced by the marked
      query term once, and the inserted markup is not scanned again. */
  function HighlightOnce(s: string, ts: seq<string>): string
  {
    Render(Pieces(s, ts))
  }

  /** The first piece of a non-empty snippet and where the rest starts. */
  lemma PiecesCons(s: string, ts: seq<string>) returns (n: nat)
    requires s != []
    ensures 0 < n <= |s|
    ensures Pieces(s, ts) ==
              [if FirstHit(s, ts).Some? then Hit(s[..n], FirstHit(s, ts).value) else Plain(s[0])] + Pieces(s[n..], ts)
    ensures FirstHit(s, ts).Some? ==> n == |FirstHit(s, ts).value|
    ensures FirstHit(s, ts).None? ==> n == 1
  {
    n := if FirstHit(s, ts).Some? then |FirstHit(s, ts).value| else 1;
  }

  lemma TextCons(p: Piece, ps: seq<Piece>)
    ensures Text([p] + ps) == PieceText(p) + Text(ps)
  {
    assert ([p] + ps)[0] == p && ([p] + ps)[1..] == ps;
  }

  lemma RenderCons(p: Piece, ps: seq<Piece>)
    ensures Render([p] + ps) == PieceMarkup(p) + Render(ps)
  {
    assert ([p] + ps)[0] == p && ([p] + ps)[1..] == ps;
  }

  /** Taking the markup away gives back the snippet. */
  lemma {:induction false} PiecesText(s: string, ts: seq<string>)
    ensures Text(Pieces(s, ts)) == s
    decreases |s|
  {
    if s != [] {
      var n := PiecesCons(s, ts);
      var p := if FirstHit(s, ts).Some? then Hit(s[..n], FirstHit(s, ts).value) else Plain(s[0]);
      var rest := Pieces(s[n..], ts);
      assert PieceText(p) == s[..n];
      calc {
        Text(Pieces(s, ts));
        Text([p] + rest);
        { TextCons(p, rest); }
        PieceText(p) + Text(rest);
        { PiecesText(s[n..], ts); }
        s[..n] + s[n..];
        s;
      }
    }
  }

  /** A marked piece is an occurrence of one of the query terms. */
  predicate HitOfTerm(p: Piece, ts: seq<string>)
  {
    p.Hit? ==> p.term in ts && p.term != [] && SameCI(p.w, p.term)
  }

  /** Every marked piece is an occurrence of a query term. */
  lemma {:induction false} HitsAreTerms(s: string, ts: seq<string>)
    ensures forall p :: p in Pieces(s, ts) ==> HitOfTerm(p, ts)
    decreases |s|
  {
    if s != [] {
      var n := PiecesCons(s, ts);
      HitsAreTerms(s[n..], ts);
      if FirstHit(s, ts).Some? {
        var t := FirstHit(s, ts).value;
        assert s[0..0 + |t|] == s[..n];
        assert HitOfTerm(Hit(s[..n], t), ts);
      }
    }
  }

  lemma {:induction false} FirstHitTwice(s: string, ts: seq<string>)
    ensures FirstHit(s, ts + ts) == FirstHit(s, ts)
  {
    FirstHitAppend(s, ts, ts);
  }

  lemma FirstHitAppend(s: string, ts: seq<string>, us: seq<string>)
    requires forall u :: u in us ==> u in ts
    ensures FirstHit(s, ts + us) == FirstHit(s, ts)
  {
    if FirstHit(s, ts).Some? {
      FirstHitAppendSome(s, ts, us);
    } else {
      assert forall t :: t in ts + us ==> t in ts;
    }
  }

  lemma {:induction false} FirstHitAppendSome(s: string, ts: seq<string>, us: seq<string>)
    requires FirstHit(s, ts).Some?
    ensures FirstHit(s, ts + us) == FirstHit(s, ts)
  {
    assert ts != [];
    assert (ts + us)[0] == ts[0] && (ts + us)[1..] == ts[1..] + us;
    if !(ts[0] != [] && MatchCI(s, ts[0], 0)) {
      FirstHitAppendSome(s, ts[1..], us);
    }
  }

  /** A term repeated in the query changes nothing, unlike the loop as written. */
  lemma {:induction false} RepeatedTermsHarmless(s: string, ts: seq<string>)
    ensures HighlightOnce(s, ts + ts) == HighlightOnce(s, ts)
  {
    PiecesTwice(s, ts);
  }

  lemma {:induction false} PiecesTwice(s: string, ts: seq<string>)
    ensures Pieces(s, ts + ts) == Pieces(s, ts)
    decreases |s|
  {
    if s != [] {
      FirstHitTwice(s, ts);
      match FirstHit(s, ts)
      case Some(t) => PiecesTwice(s[|t|..], ts);
      case None => PiecesTwice(s[1..], ts);
    }
  }

  /** A snippet in which no query term occurs is left as it is. */
  lemma {:induction false} HighlightOnceNoMatch(s: string, ts: seq<string>)
    requires forall t :: t in ts ==> t != [] && forall j :: !MatchCI(s, t, j)
    ensures HighlightOnce(s, ts) == s
    decreases |s|
  {
    if s != [] {
      assert FirstHit(s, ts).None?;
      forall t | t in ts ensures t != [] && forall j :: !MatchCI(s[1..], t, j) {
        forall j ensures !MatchCI(s[1..], t, j) {
          if 0 <= j && j + |t| <= |s| - 1 {
            assert s[1..][j..j + |t|] == s[j + 1..j + 1 + |t|];
            assert !MatchCI(s, t, j + 1);
          }
        }
      }
      HighlightOnceNoMatch(s[1..], ts);
    }
  }

  lemma SameCIExample(a: string, b: string)
    requires a == "api" && (b == "api" || b == "API")
    ensures MatchCI(b, a, 0)
  {
    assert b[0..3] == b;
    assert SameCI(b[2..], a[2..]);
    assert SameCI(b[1..], a[1..]);
  }

  /** The repeated term of the example above, highlighted in one pass. */
  lemma HighlightOnceRepeated()
    ensures HighlightOnce("api", ["api", "api"]) == Mark("api")
  {
    var ts := ["api", "api"];
    SameCIExample("api", "api");
    assert FirstHit("api", ts) == Some("api");
    var n := PiecesCons("api", ts);
    assert "api"[..3] == "api" && "api"[3..] == [];
    RenderCons(Hit("api", "api"), []);
  }

  /** As in the loop, an occurrence in another case is replaced by the query
      term as the query spells it. */
  lemma HighlightOnceTermCase()
    ensures HighlightOnce("API", ["api"]) == Mark("api")
  {
    var ts := ["api"];
    SameCIExample("api", "API");
    assert FirstHit("API", ts) == Some("api");
    var n := PiecesCons("API", ts);
    assert "API"[..3] == "API" && "API"[3..] == [];
    RenderCons(Hit("API", "api"), []);
  }

  /** `_generate_snippet` as written: the window around the first
      occurrence of the query, then each query token in turn replaced by its
      mark, in the text the earlier tokens already marked. */
  function SnippetSpec(st: Settings, query: string, content: string): string
  {
    HighlightAll(Window(query, content), TokenizeSpec(st, query))
  }

  /** `_generate_snippet`: the window, then the highlighting loop. */
  method GenerateSnippet(st: Settings, query: string, content: string) returns (snippet: string)
    ensures snippet == SnippetSpec(st, query, content)
  {
    snippet := Window(query, content);
    var ts := Tokenize(st, query);
    snippet := Highlight(snippet, ts);
  }

  /** A window in which no query token occurs is returned unmarked. */
  lemma SnippetUnmarked(st: Settings, query: string, content: string)
    requires forall t :: t in TokenizeSpec(st, query) ==> forall j :: !MatchCI(Window(query, content), t, j)
    ensures SnippetSpec(st, query, content) == Window(query, content)
  {
    HighlightNoMatch(Window(query, content), TokenizeSpec(st, query));
  }

  /** `_generate_snippet` with the highlighting corrected to one pass, in
      which every occurrence of a query token is marked once. */
  method GenerateSnippetOnce(st: Settings, query: string, content: string) returns (snippet: string)
    ensures snippet == HighlightOnce(Window(query, content), TokenizeSpec(st, query))
  {
    snippet := Window(query, content);
    var ts := Tokenize(st, query);
    snippet := HighlightOnce(snippet, ts);
  }
}
