// The tokenizer of the search index (`_tokenize`, `_tokenize_non_chinese`,
// `_remove_stop_words`): maximal ASCII letter/digit runs, maximal CJK runs
// (U+4E00..U+9FA5) expanded into their single characters when longer than
// two, then stop-word and minimum-length filtering.

module Tokenizer {
  import opened PyText

  /** The `optimization_settings` record. `stemming` and `synonymsEnabled`
      are accepted but never read by any operation. */
  datatype Settings = Settings(
    stemming: bool,
    stopWordsRemoval: bool,
    synonymsEnabled: bool,
    chineseSegmentation: bool,
    maxTokensPerDocument: int,
    minTokenLength: int)

  /** The settings written into fresh metadata. */
  const DefaultSettings: Settings := Settings(true, true, true, true, 10000, 2)

  predicate IsCjk(c: char) { '\U{4E00}' <= c <= '\U{9FA5}' }

  predicate IsAlnum(c: char) { 'a' <= c <= 'z' || 'A' <= c <= 'Z' || '0' <= c <= '9' }

  datatype CharClass = Alnum | Cjk

  predicate InClass(c: char, k: CharClass)
  {
    match k
    case Alnum => IsAlnum(c)
    case Cjk => IsCjk(c)
  }

  /** Every character of t is in class k. */
  predicate AllIn(t: string, k: CharClass)
  {
    forall i :: 0 <= i < |t| ==> InClass(t[i], k)
  }

  /** A term is a non-empty string of letters/digits or of CJK characters. */
  predicate IsTerm(t: string)
  {
    t != [] && (AllIn(t, Alnum) || AllIn(t, Cjk))
  }

  /** Length of the maximal prefix of s whose characters are all in class k. */
  function RunLen(s: string, k: CharClass): (n: nat)
    ensures n <= |s|
    ensures forall i :: 0 <= i < n ==> InClass(s[i], k)
    ensures n < |s| ==> !InClass(s[n], k)
  {
    if s == [] || !InClass(s[0], k) then 0 else 1 + RunLen(s[1..], k)
  }

  /** `_tokenize_non_chinese`: every maximal run of ASCII letters and digits, in order. */
  function AlnumRuns(s: string): seq<string>
    decreases |s|
  {
    if s == [] then []
    else if IsAlnum(s[0]) then
      var n := RunLen(s, Alnum);
      [s[..n]] + AlnumRuns(s[n..])
    else AlnumRuns(s[1..])
  }

  /** `list(w)`: each character of w as a one-character string. */
  function Chars(w: string): (r: seq<string>)
    ensures |r| == |w|
    ensures forall i :: 0 <= i < |w| ==> r[i] == [w[i]]
  {
    seq(|w|, i requires 0 <= i < |w| => [w[i]])
  }

  /** The terms one CJK run contributes: the run, plus its characters when longer than 2. */
  function CjkTerms(w: string): seq<string>
  {
    if |w| <= 2 then [w] else [w] + Chars(w)
  }

  /** Reference scanner for segmentation on: left to right, a CJK run gives
      its CJK terms, an ASCII letter/digit run gives one term, every other
      character separates. */
  function Lex(s: string): seq<string>
    decreases |s|
  {
    if s == [] then []
    else if IsCjk(s[0]) then
      var n := RunLen(s, Cjk);
      CjkTerms(s[..n]) + Lex(s[n..])
    else if IsAlnum(s[0]) then
      var n := RunLen(s, Alnum);
      [s[..n]] + Lex(s[n..])
    else Lex(s[1..])
  }

  /** The terms before any filtering. */
  function RawTokens(segmentation: bool, s: string): seq<string>
  {
    if segmentation then Lex(s) else AlnumRuns(s)
  }

  /** The fixed stop-word set, compared against the lower-cased term. */
  const StopWords: set<string> := {
    "的", "了", "和", "是", "在", "有", "我", "他", "她", "它", "你",
    "这", "那", "个", "我们", "你们", "他们", "她们", "它们",
    "a", "an", "the", "and", "or", "but", "if", "because", "for",
    "with", "on", "in", "at", "to", "of", "by", "from", "as", "is",
    "are", "was", "were", "be", "been", "being", "have", "has", "had",
    "do", "does", "did", "will", "would", "should", "could", "may", "might",
    "1", "2", "3", "4", "5", "6", "7", "8", "9", "0"
  }

  /** a is b with some of its elements left out, the others in their order. */
  predicate Subsequence<T(==)>(a: seq<T>, b: seq<T>)
    decreases |b|
  {
    if b == [] then a == []
    else (a != [] && a[0] == b[0] && Subsequence(a[1..], b[1..])) || Subsequence(a, b[1..])
  }

  lemma {:induction false} SubsequenceTrans<T>(a: seq<T>, b: seq<T>, c: seq<T>)
    requires Subsequence(a, b) && Subsequence(b, c)
    ensures Subsequence(a, c)
    decreases |c|
  {
    if c != [] {
      if Subsequence(b, c[1..]) {
        SubsequenceTrans(a, b, c[1..]);
      } else if a != [] && a[0] == b[0] && Subsequence(a[1..], b[1..]) {
        SubsequenceTrans(a[1..], b[1..], c[1..]);
      } else {
        SubsequenceTrans(a, b[1..], c[1..]);
      }
    }
  }

  /** `_remove_stop_words`: keeps, in order, the terms whose lower-case form
      is no stop word, each as often as it occurs. */
  function RemoveStopWords(ts: seq<string>): (r: seq<string>)
    ensures forall t :: t in r <==> t in ts && Lower(t) !in StopWords
    ensures forall t :: multiset(r)[t] == if Lower(t) in StopWords then 0 else multiset(ts)[t]
    ensures Subsequence(r, ts)
    ensures |r| <= |ts|
  {
    if ts == [] then []
    else
      assert ts == [ts[0]] + ts[1..];
      var rest := RemoveStopWords(ts[1..]);
      if Lower(ts[0]) in StopWords then rest
      else
        assert ([ts[0]] + rest)[1..] == rest;
        [ts[0]] + rest
  }

  /** The minimum-length filter: keeps, in order, the terms of length at
      least m, each as often as it occurs. */
  function DropShort(ts: seq<string>, m: int): (r: seq<string>)
    ensures forall t :: t in r <==> t in ts && |t| >= m
    ensures forall t :: multiset(r)[t] == if |t| >= m then multiset(ts)[t] else 0
    ensures Subsequence(r, ts)
    ensures |r| <= |ts|
  {
    if ts == [] then []
    else
      assert ts == [ts[0]] + ts[1..];
      var rest := DropShort(ts[1..], m);
      if |ts[0]| >= m then
        assert ([ts[0]] + rest)[1..] == rest;
        [ts[0]] + rest
      else rest
  }

  /** The tokens of `_tokenize` are the scanned terms in scan order, with the
      filtered ones left out and every other one kept as often as it occurs. */
  lemma TokenizeOrder(st: Settings, text: string)
    ensures Subsequence(TokenizeSpec(st, text), RawTokens(st.chineseSegmentation, text))
    ensures forall t :: multiset(TokenizeSpec(st, text))[t] ==
              if |t| >= st.minTokenLength && !(st.stopWordsRemoval && Lower(t) in StopWords)
              then multiset(RawTokens(st.chineseSegmentation, text))[t] else 0
  {
    var raw := RawTokens(st.chineseSegmentation, text);
    var kept := if st.stopWordsRemoval then RemoveStopWords(raw) else raw;
    if st.stopWordsRemoval {
      SubsequenceTrans(DropShort(kept, st.minTokenLength), kept, raw);
    }
  }

  /** `_tokenize` under settings st. */
  function TokenizeSpec(st: Settings, text: string): (r: seq<string>)
    ensures forall t :: t in r ==> t in RawTokens(st.chineseSegmentation, text)
    ensures forall t :: t in r ==> IsTerm(t) && |t| >= st.minTokenLength
    ensures st.stopWordsRemoval ==> forall t :: t in r ==> Lower(t) !in StopWords
    ensures !st.chineseSegmentation ==> forall t :: t in r ==> AllIn(t, Alnum)
  {
    RawTokensAreTerms(st.chineseSegmentation, text);
    var raw := RawTokens(st.chineseSegmentation, text);
    var kept := if st.stopWordsRemoval then RemoveStopWords(raw) else raw;
    DropShort(kept, st.minTokenLength)
  }

  /** `_tokenize`. */
  method Tokenize(st: Settings, text: string) returns (tokens: seq<string>)
    ensures tokens == TokenizeSpec(st, text)
  {
    var raw: seq<string>;
    if st.chineseSegmentation {
      raw := SegmentedScan(text);
    } else {
      raw := AlnumRuns(text);
    }
    if st.stopWordsRemoval {
      raw := RemoveStopWords(raw);
    }
    tokens := DropShort(raw, st.minTokenLength);
  }

  /** The segmentation branch of `_tokenize`: the loop over the CJK runs of
      the text, tokenizing the stripped gap before each run and the stripped
      rest after the last one. */
  method SegmentedScan(text: string) returns (raw: seq<string>)
    ensures raw == Lex(text)
  {
    raw := [];
    var lastEnd := 0;
    var i := 0;
    assert text[lastEnd..] == text;
    while i < |text|
      invariant 0 <= lastEnd <= i <= |text|
      invariant forall j :: lastEnd <= j < i ==> !IsCjk(text[j])
      invariant Lex(text) == raw + Lex(text[lastEnd..])
    {
      if IsCjk(text[i]) {
        var terms, next := ScanRun(text, lastEnd, i);
        Advance(Lex(text), raw, terms, Lex(text[lastEnd..]), Lex(text[next..]));
        raw := raw + terms;
        lastEnd := next;
        i := next;
      } else {
        i := i + 1;
      }
    }
    var remaining := Strip(text[lastEnd..]);
    TailStep(text, lastEnd);
    if remaining != [] {
      raw := raw + AlnumRuns(remaining);
    }
  }

  /** The body of the loop for the CJK run found at i: the terms of the
      stripped gap since the previous run, then the run itself (and its
      characters when longer than two). */
  method ScanRun(text: string, lastEnd: nat, i: nat) returns (terms: seq<string>, next: nat)
    requires lastEnd <= i < |text| && IsCjk(text[i])
    requires forall j :: lastEnd <= j < i ==> !IsCjk(text[j])
    ensures i < next <= |text|
    ensures Lex(text[lastEnd..]) == terms + Lex(text[next..])
  {
    var n := RunLen(text[i..], Cjk);
    var nonChinese := Strip(text[lastEnd..i]);
    var gap := if nonChinese != [] then AlnumRuns(nonChinese) else [];
    assert gap == AlnumRuns(nonChinese);
    next := i + n;
    terms := gap + CjkTerms(text[i..next]);
    CjkStep(text, lastEnd, i, next, terms);
  }

  lemma Advance<T>(whole: seq<T>, done: seq<T>, piece: seq<T>, rest: seq<T>, rest': seq<T>)
    requires whole == done + rest && rest == piece + rest'
    ensures whole == (done + piece) + rest'
  {
  }

  /** One iteration of the scan: the gap before the CJK run at i, then the run. */
  lemma CjkStep(text: string, lastEnd: nat, i: nat, next: nat, terms: seq<string>)
    requires lastEnd <= i < |text| && IsCjk(text[i])
    requires forall j :: lastEnd <= j < i ==> !IsCjk(text[j])
    requires next == i + RunLen(text[i..], Cjk)
    requires terms == AlnumRuns(Strip(text[lastEnd..i])) + CjkTerms(text[i..next])
    ensures i < next <= |text|
    ensures Lex(text[lastEnd..]) == terms + Lex(text[next..])
  {
    var gap := text[lastEnd..i];
    var run := text[i..next];
    GapStep(text, lastEnd, i);
    RunStep(text, i, next);
    StripKeepsRuns(gap);
    Advance(Lex(text[lastEnd..]), AlnumRuns(gap), CjkTerms(run), Lex(text[i..]), Lex(text[next..]));
  }

  /** The stretch free of CJK before position i contributes its letter/digit runs. */
  lemma GapStep(text: string, lastEnd: nat, i: nat)
    requires lastEnd <= i < |text| && IsCjk(text[i])
    requires forall j :: lastEnd <= j < i ==> !IsCjk(text[j])
    ensures Lex(text[lastEnd..]) == AlnumRuns(text[lastEnd..i]) + Lex(text[i..])
  {
    var x := text[lastEnd..];
    var m := i - lastEnd;
    NoCjkBefore(text, lastEnd, i);
    LexSplit(x, m);
    calc {
      Lex(x);
      AlnumRuns(x[..m]) + Lex(x[m..]);
      { Suffix(text, lastEnd, i); }
      AlnumRuns(text[lastEnd..i]) + Lex(text[i..]);
    }
  }

  lemma NoCjkBefore(text: string, lastEnd: nat, i: nat)
    requires lastEnd <= i < |text| && IsCjk(text[i])
    requires forall j :: lastEnd <= j < i ==> !IsCjk(text[j])
    ensures forall j :: 0 <= j < i - lastEnd ==> !IsCjk(text[lastEnd..][j])
    ensures IsCjk(text[lastEnd..][i - lastEnd])
  {
  }

  /** A suffix of text, cut again at b. */
  lemma Suffix<T>(text: seq<T>, a: nat, b: nat)
    requires a <= b <= |text|
    ensures text[a..][..b - a] == text[a..b]
    ensures text[a..][b - a..] == text[b..]
  {
  }

  /** The CJK run starting at i contributes its CJK terms. */
  lemma RunStep(text: string, i: nat, next: nat)
    requires i < |text| && IsCjk(text[i])
    requires next == i + RunLen(text[i..], Cjk)
    ensures i < next <= |text|
    ensures Lex(text[i..]) == CjkTerms(text[i..next]) + Lex(text[next..])
  {
    var u := text[i..];
    var n := next - i;
    var run := text[i..next];
    assert u[..n] == run && u[n..] == text[next..] by { Suffix(text, i, next); }
    assert Lex(u) == CjkTerms(u[..n]) + Lex(u[n..]) by { LexCjkHead(u, n); }
  }

  lemma LexCjkHead(s: string, n: nat)
    requires s != [] && IsCjk(s[0])
    requires n == RunLen(s, Cjk)
    ensures Lex(s) == CjkTerms(s[..n]) + Lex(s[n..])
  {
  }

  /** The end of the scan: the rest after the last CJK run. */
  lemma TailStep(text: string, lastEnd: nat)
    requires lastEnd <= |text|
    requires forall j :: lastEnd <= j < |text| ==> !IsCjk(text[j])
    ensures Lex(text[lastEnd..]) == AlnumRuns(Strip(text[lastEnd..]))
  {
    LexSplit(text[lastEnd..], |text| - lastEnd);
    assert text[lastEnd..][..|text| - lastEnd] == text[lastEnd..];
    StripKeepsRuns(text[lastEnd..]);
  }

  // ---------------------------------------------------------------------
  // Splitting lemmas behind Tokenize

  /** A run shorter than a prefix has the same length within that prefix. */
  lemma RunLenPrefix(s: string, k: CharClass, m: nat)
    requires RunLen(s, k) <= m <= |s|
    ensures RunLen(s[..m], k) == RunLen(s, k)
  {
  }

  /** Characters outside every run do not change the letter/digit runs. */
  lemma {:induction false} AlnumDropFront(s: string, a: nat)
    requires a <= |s|
    requires forall j :: 0 <= j < a ==> !IsAlnum(s[j])
    ensures AlnumRuns(s) == AlnumRuns(s[a..])
    decreases a
  {
    if a > 0 {
      AlnumDropFront(s[1..], a - 1);
      assert s[1..][a - 1..] == s[a..];
    }
  }

  /** The letter/digit runs split at any position that holds no letter or digit. */
  lemma {:induction false} AlnumSplit(s: string, k: nat)
    requires k <= |s|
    requires k == |s| || !IsAlnum(s[k])
    ensures AlnumRuns(s) == AlnumRuns(s[..k]) + AlnumRuns(s[k..])
    decreases |s|
  {
    if k == 0 {
      assert s[k..] == s;
    } else if IsAlnum(s[0]) {
      var n := RunLen(s, Alnum);
      var mid := AlnumRuns(s[n..][..k - n]);
      AlnumSplit(s[n..], k - n);
      PrefixRuns(s, k, n);
      Slices(s, n, k);
      calc {
        AlnumRuns(s);
        { AlnumHead(s); }
        [s[..n]] + AlnumRuns(s[n..]);
        [s[..n]] + (mid + AlnumRuns(s[k..]));
        { Regroup([s[..n]], mid, AlnumRuns(s[k..])); }
        ([s[..n]] + mid) + AlnumRuns(s[k..]);
        AlnumRuns(s[..k]) + AlnumRuns(s[k..]);
      }
    } else {
      AlnumSplit(s[1..], k - 1);
      assert s[..k][1..] == s[1..][..k - 1];
      assert s[1..][k - 1..] == s[k..];
    }
  }

  lemma Regroup<T>(a: seq<T>, b: seq<T>, c: seq<T>)
    ensures a + (b + c) == (a + b) + c
  {
  }

  lemma SpaceIsNoAlnum(c: char)
    requires IsSpace(c)
    ensures !IsAlnum(c)
  {
  }

  /** `strip()` before `_tokenize_non_chinese` does not change its result. */
  lemma StripKeepsRuns(x: string)
    ensures AlnumRuns(Strip(x)) == AlnumRuns(x)
  {
    var a := SpaceRun(x);
    var y := x[a..];
    var b := TrimmedEnd(y);
    assert Strip(x) == y[..b];
    forall i | 0 <= i < a ensures !IsAlnum(x[i]) { SpaceIsNoAlnum(x[i]); }
    AlnumDropFront(x, a);
    if b < |y| {
      SpaceIsNoAlnum(y[b]);
    }
    AlnumSplit(y, b);
    var z := y[b..];
    forall i | 0 <= i < |z| ensures !IsAlnum(z[i]) { SpaceIsNoAlnum(z[i]); }
    AlnumDropFront(z, |z|);
    assert z[|z|..] == [];
  }

  /** The reference scan over text free of CJK, up to a CJK character or the
      end, is the letter/digit runs of that stretch. */
  lemma {:induction false} LexSplit(s: string, k: nat)
    requires k <= |s|
    requires forall j :: 0 <= j < k ==> !IsCjk(s[j])
    requires k == |s| || IsCjk(s[k])
    ensures Lex(s) == AlnumRuns(s[..k]) + Lex(s[k..])
    decreases |s|
  {
    if k == 0 {
      assert s[k..] == s;
    } else if IsAlnum(s[0]) {
      var n := RunLen(s, Alnum);
      LexSplit(s[n..], k - n);
      Slices(s, n, k);
      LexSplitRun(s, k, n);
    } else {
      LexSplit(s[1..], k - 1);
      LexSplitSkip(s, k);
    }
  }

  lemma LexSplitRun(s: string, k: nat, n: nat)
    requires 0 < k <= |s| && IsAlnum(s[0])
    requires n == RunLen(s, Alnum) <= k
    requires Lex(s[n..]) == AlnumRuns(s[n..][..k - n]) + Lex(s[k..])
    ensures Lex(s) == AlnumRuns(s[..k]) + Lex(s[k..])
  {
    var mid := AlnumRuns(s[n..][..k - n]);
    PrefixRuns(s, k, n);
    calc {
      Lex(s);
      { LexAlnumHead(s); }
      [s[..n]] + Lex(s[n..]);
      [s[..n]] + (mid + Lex(s[k..]));
      { Regroup([s[..n]], mid, Lex(s[k..])); }
      ([s[..n]] + mid) + Lex(s[k..]);
      AlnumRuns(s[..k]) + Lex(s[k..]);
    }
  }

  /** Slices of slices. */
  lemma Slices<T>(s: seq<T>, n: nat, k: nat)
    requires n <= k <= |s|
    ensures s[..k][..n] == s[..n]
    ensures s[..k][n..] == s[n..][..k - n]
    ensures s[n..][k - n..] == s[k..]
  {
  }

  /** The first run of a prefix that extends past it is that run. */
  lemma PrefixRuns(s: string, k: nat, n: nat)
    requires 0 < k <= |s| && IsAlnum(s[0])
    requires n == RunLen(s, Alnum) <= k
    ensures AlnumRuns(s[..k]) == [s[..n]] + AlnumRuns(s[n..][..k - n])
  {
    var p := s[..k];
    RunLenPrefix(s, Alnum, k);
    var m := RunLen(p, Alnum);
    Slices(s, n, k);
    calc {
      AlnumRuns(p);
      { AlnumHead(p); }
      [p[..m]] + AlnumRuns(p[m..]);
      [s[..n]] + AlnumRuns(s[n..][..k - n]);
    }
  }

  lemma AlnumHead(p: string)
    requires p != [] && IsAlnum(p[0])
    ensures AlnumRuns(p) == [p[..RunLen(p, Alnum)]] + AlnumRuns(p[RunLen(p, Alnum)..])
  {
  }

  lemma LexAlnumHead(s: string)
    requires s != [] && IsAlnum(s[0])
    ensures Lex(s) == [s[..RunLen(s, Alnum)]] + Lex(s[RunLen(s, Alnum)..])
  {
  }

  lemma LexSplitSkip(s: string, k: nat)
    requires 0 < k <= |s| && !IsAlnum(s[0]) && !IsCjk(s[0])
    requires Lex(s[1..]) == AlnumRuns(s[1..][..k - 1]) + Lex(s[1..][k - 1..])
    ensures Lex(s) == AlnumRuns(s[..k]) + Lex(s[k..])
  {
    Slices(s, 1, k);
    calc {
      Lex(s);
      { LexSkipHead(s); }
      Lex(s[1..]);
      AlnumRuns(s[..k][1..]) + Lex(s[k..]);
      { SkipHead(s[..k]); }
      AlnumRuns(s[..k]) + Lex(s[k..]);
    }
  }

  lemma LexSkipHead(s: string)
    requires s != [] && !IsAlnum(s[0]) && !IsCjk(s[0])
    ensures Lex(s) == Lex(s[1..])
  {
  }

  lemma SkipHead(p: string)
    requires p != [] && !IsAlnum(p[0])
    ensures AlnumRuns(p) == AlnumRuns(p[1..])
  {
  }

  // ---------------------------------------------------------------------
  // What the terms are

  /** s[i..i+n] is a maximal run of class k in s. */
  ghost predicate MaximalRun(s: string, i: int, n: int, k: CharClass)
  {
    0 <= i && 1 <= n && i + n <= |s| && AllIn(s[i..i + n], k) &&
    (i == 0 || !InClass(s[i - 1], k)) && (i + n == |s| || !InClass(s[i + n], k))
  }

  /** t is a whole maximal run of class k in s. */
  ghost predicate IsWholeRun(s: string, t: string, k: CharClass)
  {
    exists i, n :: MaximalRun(s, i, n, k) && t == s[i..i + n]
  }

  /** t is one character of a maximal CJK run of s longer than two. */
  ghost predicate IsRunChar(s: string, t: string)
  {
    exists i, n, j :: MaximalRun(s, i, n, Cjk) && n > 2 && i <= j < i + n && t == [s[j]]
  }

  /** The shapes a term of text s can take. */
  ghost predicate FromScan(s: string, t: string)
  {
    IsWholeRun(s, t, Alnum) || IsWholeRun(s, t, Cjk) || IsRunChar(s, t)
  }

  /** No run of class k continues across position d of s. */
  ghost predicate Boundary(s: string, d: int, k: CharClass)
    requires 0 < d <= |s|
  {
    InClass(s[d - 1], k) ==> d == |s| || !InClass(s[d], k)
  }

  lemma LiftRun(s: string, d: nat, i: nat, n: nat, k: CharClass)
    requires 0 < d <= |s| && Boundary(s, d, k) && MaximalRun(s[d..], i, n, k)
    ensures MaximalRun(s, d + i, n, k) && s[d..][i..i + n] == s[d + i..d + i + n]
  {
    assert s[d..][i..i + n] == s[d + i..d + i + n];
    if i == 0 {
      assert InClass(s[d..][0], k);
    } else {
      assert s[d..][i - 1] == s[d + i - 1];
    }
    if i + n < |s[d..]| {
      assert s[d..][i + n] == s[d + i + n];
    }
  }

  lemma LiftScanned(s: string, d: nat, t: string)
    requires 0 < d <= |s| && Boundary(s, d, Alnum) && Boundary(s, d, Cjk) && FromScan(s[d..], t)
    ensures FromScan(s, t)
  {
    if IsWholeRun(s[d..], t, Alnum) {
      var i: nat, n: nat :| MaximalRun(s[d..], i, n, Alnum) && t == s[d..][i..i + n];
      LiftRun(s, d, i, n, Alnum);
      assert IsWholeRun(s, t, Alnum);
    } else if IsWholeRun(s[d..], t, Cjk) {
      var i: nat, n: nat :| MaximalRun(s[d..], i, n, Cjk) && t == s[d..][i..i + n];
      LiftRun(s, d, i, n, Cjk);
      assert IsWholeRun(s, t, Cjk);
    } else {
      var i: nat, n: nat, j: nat :| MaximalRun(s[d..], i, n, Cjk) && n > 2 && i <= j < i + n && t == [s[d..][j]];
      LiftRun(s, d, i, n, Cjk);
      assert MaximalRun(s, d + i, n, Cjk) && t == [s[d + j]];
      assert IsRunChar(s, t);
    }
  }

  /** Every term of the reference scan is a maximal letter/digit run, a
      maximal CJK run, or one character of a CJK run longer than two. */
  lemma {:induction false} LexShape(s: string)
    ensures forall t :: t in Lex(s) ==> FromScan(s, t)
    decreases |s|
  {
    if s == [] {
    } else if IsCjk(s[0]) {
      var n := RunLen(s, Cjk);
      LexShape(s[n..]);
      CjkHeadShape(s, n);
    } else if IsAlnum(s[0]) {
      var n := RunLen(s, Alnum);
      LexShape(s[n..]);
      AlnumHeadShape(s, n);
    } else {
      LexShape(s[1..]);
      forall t | t in Lex(s) ensures FromScan(s, t) {
        assert t in Lex(s[1..]);
        assert Boundary(s, 1, Alnum) && Boundary(s, 1, Cjk);
        LiftScanned(s, 1, t);
      }
    }
  }

  lemma CjkHeadShape(s: string, n: nat)
    requires s != [] && IsCjk(s[0]) && n == RunLen(s, Cjk)
    requires forall t :: t in Lex(s[n..]) ==> FromScan(s[n..], t)
    ensures forall t :: t in Lex(s) ==> FromScan(s, t)
  {
    assert Lex(s) == CjkTerms(s[..n]) + Lex(s[n..]);
    forall t | t in CjkTerms(s[..n]) ensures FromScan(s, t) {
      CjkTermShape(s, n, t);
    }
    forall t | t in Lex(s[n..]) ensures FromScan(s, t) {
      assert Boundary(s, n, Alnum) && Boundary(s, n, Cjk);
      LiftScanned(s, n, t);
    }
  }

  lemma CjkTermShape(s: string, n: nat, t: string)
    requires s != [] && IsCjk(s[0]) && n == RunLen(s, Cjk)
    requires t in CjkTerms(s[..n])
    ensures FromScan(s, t)
  {
    CjkRunMaximal(s, n);
    if t == s[..n] {
      assert t == s[0..0 + n];
      assert IsWholeRun(s, t, Cjk);
    } else {
      assert n > 2 && t in Chars(s[..n]);
      CjkCharShape(s, n, t);
    }
  }

  lemma CjkRunMaximal(s: string, n: nat)
    requires s != [] && IsCjk(s[0]) && n == RunLen(s, Cjk)
    ensures MaximalRun(s, 0, n, Cjk)
  {
    var run := s[0..n];
    assert forall j :: 0 <= j < n ==> run[j] == s[j];
  }

  lemma CjkCharShape(s: string, n: nat, t: string)
    requires MaximalRun(s, 0, n, Cjk) && n > 2
    requires t in Chars(s[..n])
    ensures IsRunChar(s, t)
  {
    var run := s[..n];
    var j :| 0 <= j < n && Chars(run)[j] == t;
    assert t == [s[j]];
  }

  lemma AlnumHeadShape(s: string, n: nat)
    requires s != [] && !IsCjk(s[0]) && IsAlnum(s[0]) && n == RunLen(s, Alnum)
    requires forall t :: t in Lex(s[n..]) ==> FromScan(s[n..], t)
    ensures forall t :: t in Lex(s) ==> FromScan(s, t)
  {
    assert Lex(s) == [s[..n]] + Lex(s[n..]);
    assert s[0..n] == s[..n];
    assert MaximalRun(s, 0, n, Alnum);
    assert IsWholeRun(s, s[..n], Alnum);
    forall t | t in Lex(s[n..]) ensures FromScan(s, t) {
      assert Boundary(s, n, Alnum) && Boundary(s, n, Cjk);
      LiftScanned(s, n, t);
    }
  }

  /** Every term of `_tokenize_non_chinese` is a maximal letter/digit run. */
  lemma {:induction false} AlnumRunsShape(s: string)
    ensures forall t :: t in AlnumRuns(s) ==> IsWholeRun(s, t, Alnum)
    decreases |s|
  {
    if s == [] {
    } else if IsAlnum(s[0]) {
      var n := RunLen(s, Alnum);
      AlnumRunsShape(s[n..]);
      assert s[0..n] == s[..n];
      assert MaximalRun(s, 0, n, Alnum);
      forall t | t in AlnumRuns(s) ensures IsWholeRun(s, t, Alnum) {
        if t == s[..n] {
          assert IsWholeRun(s, t, Alnum);
        } else {
          assert t in AlnumRuns(s[n..]);
          assert Boundary(s, n, Alnum);
          var i: nat, m: nat :| MaximalRun(s[n..], i, m, Alnum) && t == s[n..][i..i + m];
          LiftRun(s, n, i, m, Alnum);
        }
      }
    } else {
      AlnumRunsShape(s[1..]);
      forall t | t in AlnumRuns(s) ensures IsWholeRun(s, t, Alnum) {
        assert t in AlnumRuns(s[1..]);
        assert Boundary(s, 1, Alnum);
        var i: nat, m: nat :| MaximalRun(s[1..], i, m, Alnum) && t == s[1..][i..i + m];
        LiftRun(s, 1, i, m, Alnum);
      }
    }
  }

  lemma ScannedIsTerm(s: string, t: string)
    requires FromScan(s, t)
    ensures IsTerm(t)
  {
    if IsRunChar(s, t) && !IsWholeRun(s, t, Alnum) && !IsWholeRun(s, t, Cjk) {
      var i, n, j :| MaximalRun(s, i, n, Cjk) && n > 2 && i <= j < i + n && t == [s[j]];
      assert s[i..i + n][j - i] == s[j];
    }
  }

  lemma RawTokensAreTerms(segmentation: bool, s: string)
    ensures forall t :: t in RawTokens(segmentation, s) ==> IsTerm(t)
    ensures !segmentation ==> forall t :: t in RawTokens(segmentation, s) ==> AllIn(t, Alnum)
  {
    if segmentation {
      LexShape(s);
      forall t | t in Lex(s) ensures IsTerm(t) { ScannedIsTerm(s, t); }
    } else {
      AlnumRunsShape(s);
      forall t | t in AlnumRuns(s) ensures IsTerm(t) && AllIn(t, Alnum) {
        ScannedIsTerm(s, t);
      }
    }
  }

  /** What `_tokenize` returns: terms taken from the text as maximal runs (or
      single characters of long CJK runs, with segmentation on), never shorter
      than the minimum, never a stop word when stop-word removal is on, and
      never containing CJK with segmentation off. */
  lemma TokenizeShape(st: Settings, text: string)
    ensures forall t :: t in TokenizeSpec(st, text) ==> FromScan(text, t)
    ensures !st.chineseSegmentation ==>
      forall t :: t in TokenizeSpec(st, text) ==> IsWholeRun(text, t, Alnum)
  {
    if st.chineseSegmentation {
      LexShape(text);
    } else {
      AlnumRunsShape(text);
    }
  }
}
