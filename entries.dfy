// One document's entry in the search index (`doc_index` in `build_index`):
// the title taken from the Markdown source (`_extract_title`), the plain
// text after whitespace normalisation (the tail of
// `_extract_text_from_markdown`), the token list cut to the per-document
// maximum, and the per-term count table (`inverted_index`).

module Entries {
  import opened PyText
  import opened OrderedMaps
  import opened Tokenizer

  /** A document's entry. `invertedIndex` is the term-count dictionary, in
      insertion order. */
  datatype Entry = Entry(
    title: string,
    path: string,
    content: string,
    tokens: seq<string>,
    tokenCount: nat,
    modifiedTime: real,
    createdAt: string,
    invertedIndex: seq<(string, nat)>)

  // ---------------------------------------------------------------------
  // Title

  /** `^#\s+` matches at p: p starts a line, holds '#', and whitespace follows. */
  predicate HeadingAt(c: string, p: int)
  {
    0 <= p && p + 1 < |c| && (p == 0 || c[p - 1] == '\n') && c[p] == '#' && IsSpace(c[p + 1])
  }

  /** The first position at or after p where `^#\s+` matches. */
  function FirstHeading(c: string, p: nat): (r: Option<nat>)
    requires p <= |c|
    ensures r.Some? ==> p <= r.value && HeadingAt(c, r.value)
    ensures r.Some? ==> forall j :: p <= j < r.value ==> !HeadingAt(c, j)
    ensures r.None? ==> forall j :: p <= j ==> !HeadingAt(c, j)
    decreases |c| - p
  {
    if p == |c| then None
    else if HeadingAt(c, p) then Some(p)
    else FirstHeading(c, p + 1)
  }

  /** The length of the longest prefix of s without a line break. */
  function LineLen(s: string): (n: nat)
    ensures n <= |s|
    ensures forall i :: 0 <= i < n ==> s[i] != '\n'
    ensures n < |s| ==> s[n] == '\n'
  {
    if s == [] || s[0] == '\n' then 0 else 1 + LineLen(s[1..])
  }

  /** What `(.*?)$` captures after the heading marker at p: `\s+` takes the
      whole whitespace run after '#' (line breaks included), and the group
      runs from there to the end of that line. */
  function HeadingText(c: string, p: nat): (r: string)
    requires HeadingAt(c, p)
    ensures '\n' !in r
  {
    var b := p + 1 + SpaceRun(c[p + 1..]);
    var t := c[b..b + LineLen(c[b..])];
    assert forall i :: 0 <= i < |t| ==> t[i] == c[b..][i];
    t
  }

  /** `s.split('\n')`. */
  function SplitLines(s: string): (r: seq<string>)
    ensures |r| >= 1
    ensures forall i :: 0 <= i < |r| ==> '\n' !in r[i]
    decreases |s|
  {
    var n := LineLen(s);
    if n == |s| then [s] else [s[..n]] + SplitLines(s[n + 1..])
  }

  /** `'\n'.join(ls)`. */
  function JoinLines(ls: seq<string>): string
  {
    if ls == [] then [] else if |ls| == 1 then ls[0] else ls[0] + "\n" + JoinLines(ls[1..])
  }

  /** Splitting at line breaks and joining with line breaks gives back the text. */
  lemma {:induction false} SplitJoin(s: string)
    ensures JoinLines(SplitLines(s)) == s
    decreases |s|
  {
    var n := LineLen(s);
    if n < |s| {
      var rest := s[n + 1..];
      var r := SplitLines(rest);
      calc {
        JoinLines(SplitLines(s));
        { SplitCons(s, n); }
        JoinLines([s[..n]] + r);
        { JoinCons(s[..n], r); }
        s[..n] + "\n" + JoinLines(r);
        { SplitJoin(rest); }
        s[..n] + "\n" + rest;
        { BreakAt(s, n); }
        s;
      }
    }
  }

  lemma SplitCons(s: string, n: nat)
    requires n == LineLen(s) < |s|
    ensures SplitLines(s) == [s[..n]] + SplitLines(s[n + 1..])
  {
  }

  lemma BreakAt(s: string, n: nat)
    requires n < |s| && s[n] == '\n'
    ensures s[..n] + "\n" + s[n + 1..] == s
  {
  }

  lemma JoinCons(l: string, ls: seq<string>)
    requires ls != []
    ensures JoinLines([l] + ls) == l + "\n" + JoinLines(ls)
  {
    assert ([l] + ls)[0] == l && ([l] + ls)[1..] == ls;
  }

  /** A stripped line the fallback accepts as a title. */
  predicate TitleLine(t: string)
  {
    t != [] && !StartsWith(t, "#") && !StartsWith(t, "```")
  }

  /** The index of the first of the lines, from i on, whose stripped form is a title line. */
  function FirstTitleLine(ls: seq<string>, i: nat): (r: Option<nat>)
    requires i <= |ls|
    ensures r.Some? ==> i <= r.value < |ls| && TitleLine(Strip(ls[r.value]))
    ensures r.Some? ==> forall j :: i <= j < r.value ==> !TitleLine(Strip(ls[j]))
    ensures r.None? ==> forall j :: i <= j < |ls| ==> !TitleLine(Strip(ls[j]))
    decreases |ls| - i
  {
    if i == |ls| then None
    else if TitleLine(Strip(ls[i])) then Some(i)
    else FirstTitleLine(ls, i + 1)
  }

  const Untitled: string := "未命名文档"

  /** `_extract_title`. */
  function ExtractTitle(c: string): string
  {
    match FirstHeading(c, 0)
    case Some(p) => Strip(HeadingText(c, p))
    case None =>
      var ls := SliceTo(SplitLines(c), 3);
      match FirstTitleLine(ls, 0)
      case Some(i) => SliceTo(Strip(ls[i]), 100)
      case None => Untitled
  }

  lemma NoBreakInStrip(s: string)
    requires '\n' !in s
    ensures '\n' !in Strip(s)
  {
    var a, b := StripIsSlice(s);
    assert forall i :: 0 <= i < b - a ==> Strip(s)[i] == s[a + i];
  }

  /** The title is one line: it never holds a line break. */
  lemma TitleIsOneLine(c: string)
    ensures '\n' !in ExtractTitle(c)
  {
    match FirstHeading(c, 0)
    case Some(p) => NoBreakInStrip(HeadingText(c, p));
    case None =>
      var ls := SliceTo(SplitLines(c), 3);
      match FirstTitleLine(ls, 0)
      case Some(i) =>
        NoBreakInStrip(ls[i]);
        var t := Strip(ls[i]);
        assert forall k :: 0 <= k < |SliceTo(t, 100)| ==> SliceTo(t, 100)[k] == t[k];
      case None =>
  }

  /** The title never starts with whitespace. */
  lemma TitleHasNoLeadingSpace(c: string)
    ensures ExtractTitle(c) == [] || !IsSpace(ExtractTitle(c)[0])
  {
  }

  /** When the text has a `# ` heading line, the title is the stripped text of the first one. */
  lemma TitleFromHeading(c: string, p: nat)
    requires HeadingAt(c, p)
    requires forall j :: 0 <= j < p ==> !HeadingAt(c, j)
    ensures ExtractTitle(c) == Strip(HeadingText(c, p))
  {
    var r := FirstHeading(c, 0);
    assert r.Some? by { assert HeadingAt(c, p); }
    assert r.value == p by {
      assert HeadingAt(c, r.value) && HeadingAt(c, p);
    }
  }

  /** Without a heading, the title is the first of the first three lines that
      is not blank, not a heading and not a code fence, stripped and cut to 100
      characters; without such a line it is the fixed placeholder. */
  lemma TitleWithoutHeading(c: string)
    requires forall j :: 0 <= j ==> !HeadingAt(c, j)
    ensures var ls := SplitLines(c);
      var t := ExtractTitle(c);
      (t == Untitled && forall i :: 0 <= i < Min(3, |ls|) ==> !TitleLine(Strip(ls[i]))) ||
      (exists i :: 0 <= i < Min(3, |ls|) && IsFallbackTitle(ls, i, t))
  {
    var all := SplitLines(c);
    var ls := SliceTo(all, 3);
    assert FirstHeading(c, 0).None?;
    assert |ls| == Min(3, |all|);
    assert forall j :: 0 <= j < |ls| ==> ls[j] == all[j];
    match FirstTitleLine(ls, 0)
    case Some(i) =>
      var t := ExtractTitle(c);
      assert t == SliceTo(Strip(ls[i]), 100);
      assert IsFallbackTitle(all, i, t);
    case None =>
  }

  /** t is the fallback title taken from line i: that line, stripped, is the
      first title line, and t is its first 100 characters. */
  predicate IsFallbackTitle(ls: seq<string>, i: int, t: string)
  {
    0 <= i < |ls| && TitleLine(Strip(ls[i])) &&
    t == Strip(ls[i])[..Min(100, |Strip(ls[i])|)] && |t| <= 100 &&
    forall j :: 0 <= j < i ==> !TitleLine(Strip(ls[j]))
  }

  // ---------------------------------------------------------------------
  // Text

  /** `re.sub(r'\s+', ' ', s)`: each maximal whitespace run becomes one space. */
  function Collapse(s: string): (r: string)
    ensures |r| <= |s| && (r == [] <==> s == [])
    ensures r != [] ==> (IsSpace(r[0]) <==> IsSpace(s[0]))
    decreases |s|
  {
    if s == [] then []
    else if IsSpace(s[0]) then [' '] + Collapse(s[SpaceRun(s)..])
    else [s[0]] + Collapse(s[1..])
  }

  /** Every whitespace character is a space and no two are adjacent. */
  predicate Collapsed(s: string)
  {
    (forall i :: 0 <= i < |s| && IsSpace(s[i]) ==> s[i] == ' ') &&
    (forall i :: 0 < i < |s| && IsSpace(s[i]) ==> !IsSpace(s[i - 1]))
  }

  /** The tail of `_extract_text_from_markdown`: collapse whitespace, then strip. */
  function NormalizeSpace(s: string): string
  {
    Strip(Collapse(s))
  }

  /** The characters of s that are not whitespace, in order. */
  function Visible(s: string): string
  {
    if s == [] then [] else (if IsSpace(s[0]) then [] else [s[0]]) + Visible(s[1..])
  }

  lemma {:induction false} CollapseIsCollapsed(s: string)
    ensures Collapsed(Collapse(s))
    decreases |s|
  {
    if s != [] {
      var n := if IsSpace(s[0]) then SpaceRun(s) else 1;
      CollapseIsCollapsed(s[n..]);
      var r := Collapse(s);
      assert r[1..] == Collapse(s[n..]);
      forall i | 0 < i < |r| && IsSpace(r[i]) ensures !IsSpace(r[i - 1]) {
        if i == 1 {
          assert IsSpace(s[n]);
        } else {
          assert r[i] == r[1..][i - 1];
        }
      }
    }
  }

  lemma {:induction false} VisibleSkipsSpace(s: string, n: nat)
    requires n <= |s|
    requires forall i :: 0 <= i < n ==> IsSpace(s[i])
    ensures Visible(s) == Visible(s[n..])
    decreases n
  {
    if n > 0 {
      VisibleSkipsSpace(s[1..], n - 1);
      assert s[1..][n - 1..] == s[n..];
    }
  }

  /** Collapsing whitespace keeps every other character, in order. */
  lemma {:induction false} CollapseKeepsText(s: string)
    ensures Visible(Collapse(s)) == Visible(s)
    decreases |s|
  {
    if s != [] {
      var r := Collapse(s);
      if IsSpace(s[0]) {
        var n := SpaceRun(s);
        CollapseKeepsText(s[n..]);
        VisibleSkipsSpace(s, n);
        assert r[1..] == Collapse(s[n..]);
      } else {
        CollapseKeepsText(s[1..]);
        assert r[1..] == Collapse(s[1..]);
      }
    }
  }

  /** A string already collapsed is left unchanged. */
  lemma {:induction false} CollapseNoop(s: string)
    requires Collapsed(s)
    ensures Collapse(s) == s
    decreases |s|
  {
    if s != [] {
      assert Collapsed(s[1..]);
      CollapseNoop(s[1..]);
      if IsSpace(s[0]) {
        assert |s| > 1 ==> !IsSpace(s[1]);
        assert SpaceRun(s) == 1;
      }
    }
  }

  /** Stripping a collapsed string leaves it collapsed. */
  lemma StripCollapsed(c: string)
    requires Collapsed(c)
    ensures Collapsed(Strip(c))
  {
    var a, b := StripIsSlice(c);
    var t := Strip(c);
    assert forall i :: 0 <= i < |t| ==> t[i] == c[a + i];
  }

  /** Normalising twice is normalising once. */
  lemma NormalizeIdempotent(s: string)
    ensures NormalizeSpace(NormalizeSpace(s)) == NormalizeSpace(s)
  {
    var c := Collapse(s);
    var t := Strip(c);
    assert Collapsed(t) by {
      CollapseIsCollapsed(s);
      StripCollapsed(c);
    }
    calc {
      NormalizeSpace(t);
      Strip(Collapse(t));
      { CollapseNoop(t); }
      Strip(t);
      { StripIdempotent(c); }
      t;
    }
  }

  /** The normalised text: no whitespace at either end, every inner
      whitespace a single space, and the same visible characters. */
  lemma NormalizeShape(s: string)
    ensures var t := NormalizeSpace(s);
      Collapsed(t) && (t == [] || (!IsSpace(t[0]) && !IsSpace(t[|t| - 1]))) &&
      Visible(t) == Visible(s)
  {
    var c := Collapse(s);
    var t := Strip(c);
    assert Collapsed(t) by {
      CollapseIsCollapsed(s);
      StripCollapsed(c);
    }
    assert Visible(t) == Visible(s) by {
      CollapseKeepsText(s);
      StripKeepsText(c);
    }
  }

  /** Stripping drops whitespace only. */
  lemma StripKeepsText(c: string)
    ensures Visible(Strip(c)) == Visible(c)
  {
    var a := SpaceRun(c);
    var u := c[a..];
    var b := TrimmedEnd(u);
    assert Strip(c) == u[..b];
    VisibleSkipsSpace(c, a);
    assert u == u[..b] + u[b..];
    VisibleAppend(u[..b], u[b..]);
    VisibleAllSpace(u[b..]);
  }

  lemma {:induction false} VisibleAppend(x: string, y: string)
    ensures Visible(x + y) == Visible(x) + Visible(y)
    decreases |x|
  {
    if x == [] {
      assert x + y == y;
    } else {
      VisibleAppend(x[1..], y);
      var h := if IsSpace(x[0]) then [] else [x[0]];
      assert (x + y)[0] == x[0];
      assert (x + y)[1..] == x[1..] + y;
      assert Visible(x + y) == h + Visible(x[1..] + y);
      assert Visible(x) == h + Visible(x[1..]);
    }
  }

  lemma VisibleAllSpace(y: string)
    requires forall i :: 0 <= i < |y| ==> IsSpace(y[i])
    ensures Visible(y) == []
  {
    VisibleSkipsSpace(y, |y|);
  }

  // ---------------------------------------------------------------------
  // Building an entry

  /** The text stored for a document: the Markdown cleaned by `stripMarkup`
      (the regular-expression chain), then whitespace-normalised. */
  function ExtractText(stripMarkup: string -> string, content: string): string
  {
    NormalizeSpace(stripMarkup(content))
  }

  /** The entry `build_index` makes for one readable Markdown file. */
  function EntryFor(st: Settings, stripMarkup: string -> string, path: string, mtime: real,
                    content: string, now: string): Entry
  {
    var text := ExtractText(stripMarkup, content);
    var tokens := SliceTo(TokenizeSpec(st, text), st.maxTokensPerDocument);
    Entry(ExtractTitle(content), path, SliceTo(text, 1000), tokens, |tokens|, mtime, now,
          Counts(tokens))
  }

  /** What every entry built by `build_index` satisfies. */
  predicate EntryValid(e: Entry)
  {
    e.tokenCount == |e.tokens| && e.invertedIndex == Counts(e.tokens) && |e.content| <= 1000
  }

  /** The counting loop of `build_index`. */
  method CountTerms(tokens: seq<string>) returns (counts: seq<(string, nat)>)
    ensures counts == Counts(tokens)
  {
    counts := [];
    var i := 0;
    while i < |tokens|
      invariant 0 <= i <= |tokens|
      invariant CountInto(counts, tokens[i..]) == Counts(tokens)
    {
      assert tokens[i..][1..] == tokens[i + 1..];
      counts := Increment(counts, tokens[i], 1);
      i := i + 1;
    }
    assert tokens[i..] == [];
  }

  /** The body of the `try` block of `build_index` for one file. */
  method MakeEntry(st: Settings, stripMarkup: string -> string, path: string, mtime: real,
                   content: string, now: string) returns (e: Entry)
    ensures e == EntryFor(st, stripMarkup, path, mtime, content, now)
  {
    var text := ExtractText(stripMarkup, content);
    var tokens := Tokenize(st, text);
    tokens := SliceTo(tokens, st.maxTokensPerDocument);
    var counts := CountTerms(tokens);
    e := Entry(ExtractTitle(content), path, SliceTo(text, 1000), tokens, |tokens|, mtime, now,
               counts);
  }

  /** A built entry: its count equals its number of tokens, which the
      per-document maximum bounds; its tokens are the document's first tokens;
      its count table has each distinct token once with its number of
      occurrences, the counts adding up to the token count; its stored text is
      at most 1000 characters. */
  lemma EntryForFacts(st: Settings, stripMarkup: string -> string, path: string, mtime: real,
                      content: string, now: string)
    ensures var e := EntryFor(st, stripMarkup, path, mtime, content, now);
      EntryValid(e) && e.path == path && e.modifiedTime == mtime &&
      IsPrefix(e.tokens, TokenizeSpec(st, ExtractText(stripMarkup, content))) &&
      (st.maxTokensPerDocument >= 0 ==> e.tokenCount <= st.maxTokensPerDocument)
  {
    var text := ExtractText(stripMarkup, content);
    var all := TokenizeSpec(st, text);
    var e := EntryFor(st, stripMarkup, path, mtime, content, now);
    EntryForIs(st, stripMarkup, path, mtime, content, now, text, all);
    EntryShape(ExtractTitle(content), path, text, all, st.maxTokensPerDocument, mtime, now);
  }

  predicate IsPrefix<T(==)>(a: seq<T>, b: seq<T>)
  {
    |a| <= |b| && a == b[..|a|]
  }

  lemma EntryForIs(st: Settings, stripMarkup: string -> string, path: string, mtime: real,
                   content: string, now: string, text: string, all: seq<string>)
    requires text == ExtractText(stripMarkup, content) && all == TokenizeSpec(st, text)
    ensures EntryFor(st, stripMarkup, path, mtime, content, now) ==
      Entry(ExtractTitle(content), path, SliceTo(text, 1000), SliceTo(all, st.maxTokensPerDocument),
            |SliceTo(all, st.maxTokensPerDocument)|, mtime, now,
            Counts(SliceTo(all, st.maxTokensPerDocument)))
  {
  }

  lemma EntryShape(title: string, path: string, text: string, all: seq<string>, max: int,
                   mtime: real, now: string)
    ensures var tokens := SliceTo(all, max);
      var e := Entry(title, path, SliceTo(text, 1000), tokens, |tokens|, mtime, now, Counts(tokens));
      EntryValid(e) && IsPrefix(e.tokens, all) && (max >= 0 ==> e.tokenCount <= max)
  {
  }

  /** The count table of a valid entry has each distinct token once, with its
      number of occurrences, and the counts add up to the token count. */
  lemma ValidCounts(e: Entry)
    requires EntryValid(e)
    ensures Unique(Keys(e.invertedIndex))
    ensures forall t :: t in Keys(e.invertedIndex) <==> t in e.tokens
    ensures forall t :: Count(e.invertedIndex, t) == multiset(e.tokens)[t]
    ensures SumValues(e.invertedIndex) == e.tokenCount
  {
    CountsFacts(e.tokens);
  }
}
