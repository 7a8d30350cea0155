// The search-index object (`SearchIndexOptimizer`): the index of entries
// keyed by document path, the metadata record, and the operations on them —
// the build with its up-to-date check, search, suggestions, pruning of
// entries whose file is gone, and the statistics export.

module IndexOptimizer {
  import opened PyText
  import opened OrderedMaps
  import opened Tokenizer
  import opened Entries
  import opened Ranking
  import opened Sorting

  /** `index_metadata.json`. */
  datatype Metadata = Metadata(
    createdAt: string,
    lastUpdated: string,
    version: string,
    documentCount: nat,
    tokenCount: nat,
    languages: seq<string>,
    settings: Settings)

  /** The metadata used when none is stored. */
  function DefaultMetadata(now: string): Metadata
  {
    Metadata(now, now, "1.0", 0, 0, ["zh", "en"], DefaultSettings)
  }

  /** One Markdown file under the documents directory, in walk order: its
      path relative to that directory, its modification time, and its
      content, or None when reading it raised. */
  datatype Doc = Doc(path: string, mtime: real, content: Option<string>)

  /** The index: entries keyed by document path, in insertion order. */
  type Index = seq<(string, Entry)>

  function Paths(docs: seq<Doc>): (r: seq<string>)
    ensures |r| == |docs|
    ensures forall i :: 0 <= i < |docs| ==> r[i] == docs[i].path
  {
    seq(|docs|, i requires 0 <= i < |docs| => docs[i].path)
  }

  // ---------------------------------------------------------------------
  // The up-to-date check

  /** The file is missing from the index or newer than its entry. */
  predicate Stale(index: Index, d: Doc)
  {
    match Get(index, d.path)
    case None => true
    case Some(e) => d.mtime > e.modifiedTime
  }

  /** The check loop of `build_index`, which stops at the first stale file. */
  method AnyStale(index: Index, docs: seq<Doc>) returns (needsUpdate: bool)
    ensures needsUpdate <==> exists i :: 0 <= i < |docs| && Stale(index, docs[i])
  {
    needsUpdate := false;
    var i := 0;
    while i < |docs|
      invariant 0 <= i <= |docs|
      invariant forall j :: 0 <= j < i ==> !Stale(index, docs[j])
    {
      if Stale(index, docs[i]) {
        needsUpdate := true;
        break;
      }
      i := i + 1;
    }
  }

  // ---------------------------------------------------------------------
  // The rebuild

  /** How the rebuild makes the entry of a readable file from its path,
      modification time and content. */
  type Maker = (string, real, string) -> Entry

  /** `build_index`'s entry: `EntryFor` with the settings, the markup
      stripper and the clock fixed. */
  function EntryMaker(st: Settings, stripMarkup: string -> string, now: string): Maker
  {
    (path: string, mtime: real, content: string) => EntryFor(st, stripMarkup, path, mtime, content, now)
  }

  /** Every entry the rebuild makes is well formed. */
  lemma EntryMakerValid(st: Settings, stripMarkup: string -> string, now: string)
    ensures forall p, m, c ::
              EntryValid(EntryMaker(st, stripMarkup, now)(p, m, c)) &&
              EntryMaker(st, stripMarkup, now)(p, m, c).modifiedTime == m
  {
    forall p, m, c
      ensures EntryValid(EntryMaker(st, stripMarkup, now)(p, m, c)) &&
        EntryMaker(st, stripMarkup, now)(p, m, c).modifiedTime == m
    {
      EntryForFacts(st, stripMarkup, p, m, c, now);
    }
  }

  /** The index the rebuild loop makes from the files: each readable file's
      entry stored under its path; a file that failed to read is skipped. */
  function Rebuilt(docs: seq<Doc>, make: Maker): Index
    decreases |docs|
  {
    if docs == [] then []
    else
      var acc := Rebuilt(docs[..|docs| - 1], make);
      var d := docs[|docs| - 1];
      match d.content
      case None => acc
      case Some(c) => Put(acc, d.path, make(d.path, d.mtime, c))
  }

  /** The paths of the readable files, in walk order. */
  function ReadablePaths(docs: seq<Doc>): seq<string>
    decreases |docs|
  {
    if docs == [] then []
    else
      var acc := ReadablePaths(docs[..|docs| - 1]);
      if docs[|docs| - 1].content.Some? then acc + [docs[|docs| - 1].path] else acc
  }

  /** `processed_docs`: the number of files read. */
  function Processed(docs: seq<Doc>): nat
    decreases |docs|
  {
    if docs == [] then 0
    else Processed(docs[..|docs| - 1]) + (if docs[|docs| - 1].content.Some? then 1 else 0)
  }

  /** `total_tokens`: the token counts of the entries made, added up. */
  function TotalTokens(docs: seq<Doc>, make: Maker): nat
    decreases |docs|
  {
    if docs == [] then 0
    else
      var d := docs[|docs| - 1];
      TotalTokens(docs[..|docs| - 1], make) +
      match d.content
      case None => 0
      case Some(c) => make(d.path, d.mtime, c).tokenCount
  }

  /** The token counts of the entries of an index, added up. */
  function SumTokenCounts(index: Index): nat
    decreases |index|
  {
    if index == [] then 0 else SumTokenCounts(index[..|index| - 1]) + index[|index| - 1].1.tokenCount
  }

  lemma Last<T>(s: seq<T>, x: T)
    ensures (s + [x])[..|s|] == s && (s + [x])[|s|] == x
  {
  }

  /** The keys of the rebuilt index are the readable paths, each once. */
  lemma {:induction false} RebuiltKeys(docs: seq<Doc>, make: Maker)
    ensures Unique(Keys(Rebuilt(docs, make)))
    ensures forall p :: p in Keys(Rebuilt(docs, make)) <==> p in ReadablePaths(docs)
    decreases |docs|
  {
    if docs != [] {
      var init := docs[..|docs| - 1];
      var d := docs[|docs| - 1];
      RebuiltKeys(init, make);
      match d.content
      case None =>
      case Some(c) =>
        PutUnique(Rebuilt(init, make), d.path, make(d.path, d.mtime, c));
    }
  }

  /** Every value of the rebuilt index is an entry the maker made. */
  lemma {:induction false} RebuiltValid(docs: seq<Doc>, make: Maker)
    requires forall p, m, c :: EntryValid(make(p, m, c))
    ensures forall k :: 0 <= k < |Rebuilt(docs, make)| ==> EntryValid(Rebuilt(docs, make)[k].1)
    decreases |docs|
  {
    if docs != [] {
      var init := docs[..|docs| - 1];
      var d := docs[|docs| - 1];
      RebuiltValid(init, make);
      match d.content
      case None =>
      case Some(c) =>
        var acc := Rebuilt(init, make);
        var e := make(d.path, d.mtime, c);
        PutValues(acc, d.path, e);
        forall k | 0 <= k < |Put(acc, d.path, e)| ensures EntryValid(Put(acc, d.path, e)[k].1) {
          if Put(acc, d.path, e)[k].1 != e {
            var j :| 0 <= j < |acc| && Put(acc, d.path, e)[k].1 == acc[j].1;
          }
        }
    }
  }

  /** Every value of `Put(p, k, v)` is v or a value of p. */
  lemma {:induction false} PutValues<K, V>(p: seq<(K, V)>, k: K, v: V)
    ensures forall i :: 0 <= i < |Put(p, k, v)| ==>
      Put(p, k, v)[i].1 == v || exists j :: 0 <= j < |p| && Put(p, k, v)[i].1 == p[j].1
  {
    if p != [] && p[0].0 != k {
      PutValues(p[1..], k, v);
      var r := Put(p, k, v);
      forall i | 0 <= i < |r|
        ensures r[i].1 == v || exists j :: 0 <= j < |p| && r[i].1 == p[j].1
      {
        if i == 0 {
          assert r[0].1 == p[0].1;
        } else {
          assert r[i] == Put(p[1..], k, v)[i - 1];
          if r[i].1 != v {
            var j :| 0 <= j < |p[1..]| && r[i].1 == p[1..][j].1;
            assert r[i].1 == p[j + 1].1;
          }
        }
      }
    }
  }

  lemma {:induction false} PathOfReadable(docs: seq<Doc>, p: string)
    requires p in ReadablePaths(docs)
    ensures exists i :: 0 <= i < |docs| && docs[i].path == p && docs[i].content.Some?
    decreases |docs|
  {
    var init := docs[..|docs| - 1];
    if p in ReadablePaths(init) {
      PathOfReadable(init, p);
      var i :| 0 <= i < |init| && init[i].path == p && init[i].content.Some?;
      assert docs[i] == init[i];
    }
  }

  lemma UniqueInit(docs: seq<Doc>)
    requires docs != [] && Unique(Paths(docs))
    ensures Unique(Paths(docs[..|docs| - 1]))
    ensures docs[|docs| - 1].path !in ReadablePaths(docs[..|docs| - 1])
  {
    var init := docs[..|docs| - 1];
    assert forall i :: 0 <= i < |init| ==> Paths(init)[i] == Paths(docs)[i];
    if docs[|docs| - 1].path in ReadablePaths(init) {
      PathOfReadable(init, docs[|docs| - 1].path);
    }
  }

  /** With distinct paths, the rebuild appends one entry per readable file:
      the keys are the readable paths in walk order, `document_count` is the
      number of entries and `token_count` their token counts added up. */
  lemma {:induction false} RebuiltCounts(docs: seq<Doc>, make: Maker)
    requires Unique(Paths(docs))
    ensures Keys(Rebuilt(docs, make)) == ReadablePaths(docs)
    ensures |Rebuilt(docs, make)| == Processed(docs)
    ensures SumTokenCounts(Rebuilt(docs, make)) == TotalTokens(docs, make)
    decreases |docs|
  {
    if docs != [] {
      var init := docs[..|docs| - 1];
      var d := docs[|docs| - 1];
      var acc := Rebuilt(init, make);
      UniqueInit(docs);
      RebuiltCounts(init, make);
      match d.content
      case None =>
      case Some(c) =>
        var e := make(d.path, d.mtime, c);
        PutNew(acc, d.path, e);
        Last(acc, (d.path, e));
    }
  }

  /** With distinct paths, each readable file's path finds the entry made
      from it. */
  lemma {:induction false} RebuiltGet(docs: seq<Doc>, make: Maker, i: nat)
    requires Unique(Paths(docs))
    requires i < |docs| && docs[i].content.Some?
    ensures Get(Rebuilt(docs, make), docs[i].path) == Some(make(docs[i].path, docs[i].mtime, docs[i].content.value))
    decreases |docs|
  {
    var init := docs[..|docs| - 1];
    var d := docs[|docs| - 1];
    var acc := Rebuilt(init, make);
    UniqueInit(docs);
    if i < |docs| - 1 {
      assert docs[i] == init[i];
      assert Paths(docs)[i] != Paths(docs)[|docs| - 1];
      RebuiltGet(init, make, i);
    }
    match d.content
    case None =>
    case Some(c) =>
      PutGet(acc, d.path, make(d.path, d.mtime, c), docs[i].path);
  }

  /** Right after a rebuild, a file that was read is not stale: when every
      file was read, a second build without `force_rebuild` leaves the
      index as it is. */
  lemma RebuildIsCurrent(docs: seq<Doc>, make: Maker, i: nat, c: string)
    requires Unique(Paths(docs))
    requires i < |docs| && docs[i].content == Some(c)
    requires make(docs[i].path, docs[i].mtime, c).modifiedTime == docs[i].mtime
    ensures !Stale(Rebuilt(docs, make), docs[i])
  {
    RebuiltGet(docs, make, i);
  }

  // ---------------------------------------------------------------------
  // Search

  /** One search hit. */
  datatype SearchResult = SearchResult(path: string, title: string, snippet: string, score: real,
                                       modifiedTime: real)

  function ScoreOf(r: SearchResult): real { r.score }

  /** The hit the search loop makes for an index item, given the scoring
      and the snippet maker for the query. */
  function Hit(item: (string, Entry), score: Entry -> real, snippet: string -> string): SearchResult
  {
    SearchResult(item.0, item.1.title, snippet(item.1.content), score(item.1), item.1.modifiedTime)
  }

  /** The hits of the search loop, in index order: every item scoring above zero. */
  function Candidates(index: Index, score: Entry -> real, snippet: string -> string): seq<SearchResult>
    decreases |index|
  {
    if index == [] then []
    else
      var acc := Candidates(index[..|index| - 1], score, snippet);
      var item := index[|index| - 1];
      if score(item.1) > 0.0 then acc + [Hit(item, score, snippet)] else acc
  }

  /** `_calculate_relevance_score` against the query's terms. */
  function Scorer(qt: seq<string>): Entry -> real
  {
    (e: Entry) => Score(qt, e)
  }

  /** `_generate_snippet` for the query. */
  function Snipper(st: Settings, query: string): string -> string
  {
    (content: string) => SnippetSpec(st, query, content)
  }

  /** Hits by non-increasing score, stably, cut to `limit`. */
  function Ranked(c: seq<SearchResult>, limit: int): seq<SearchResult>
  {
    SliceTo(SortDesc(c, ScoreOf), limit)
  }

  /** `search(query, limit)`. */
  function SearchSpec(st: Settings, index: Index, query: string, limit: int): seq<SearchResult>
  {
    if index == [] || Strip(query) == [] then []
    else Ranked(Candidates(index, Scorer(TokenizeSpec(st, query)), Snipper(st, query)), limit)
  }

  /** The hits are exactly the index items scoring above zero. */
  lemma {:induction false} CandidatesFacts(index: Index, score: Entry -> real, snippet: string -> string)
    ensures forall r :: r in Candidates(index, score, snippet) ==>
      r.score > 0.0 && exists k :: 0 <= k < |index| && r == Hit(index[k], score, snippet)
    ensures forall k :: 0 <= k < |index| && score(index[k].1) > 0.0 ==>
      Hit(index[k], score, snippet) in Candidates(index, score, snippet)
    decreases |index|
  {
    if index != [] {
      var init := index[..|index| - 1];
      CandidatesFacts(init, score, snippet);
      var c := Candidates(index, score, snippet);
      forall r | r in c
        ensures r.score > 0.0 && exists k :: 0 <= k < |index| && r == Hit(index[k], score, snippet)
      {
        if r in Candidates(init, score, snippet) {
          var k :| 0 <= k < |init| && r == Hit(init[k], score, snippet);
          assert init[k] == index[k];
        } else {
          assert r == Hit(index[|index| - 1], score, snippet);
        }
      }
      forall k | 0 <= k < |index| && score(index[k].1) > 0.0
        ensures Hit(index[k], score, snippet) in c
      {
        if k < |index| - 1 {
          assert index[k] == init[k];
        }
      }
    }
  }

  /** One more readable file: its entry is stored, and both counts grow. */
  lemma RebuiltRead(done: seq<Doc>, d: Doc, make: Maker)
    requires d.content.Some?
    ensures Rebuilt(done + [d], make) == Put(Rebuilt(done, make), d.path, make(d.path, d.mtime, d.content.value))
    ensures Processed(done + [d]) == Processed(done) + 1
    ensures TotalTokens(done + [d], make) ==
      TotalTokens(done, make) + make(d.path, d.mtime, d.content.value).tokenCount
  {
    assert (done + [d])[..|done|] == done;
  }

  /** One more file that failed to read: nothing changes. */
  lemma RebuiltUnread(done: seq<Doc>, d: Doc, make: Maker)
    requires d.content.None?
    ensures Rebuilt(done + [d], make) == Rebuilt(done, make)
    ensures Processed(done + [d]) == Processed(done)
    ensures TotalTokens(done + [d], make) == TotalTokens(done, make)
  {
    assert (done + [d])[..|done|] == done;
  }

  /** The rebuild loop of `build_index`, making each readable file's entry
      with `make`: the new index, `processed_docs` and `total_tokens`. */
  method RebuildAll(docs: seq<Doc>, make: Maker) returns (newIndex: Index, processed: nat, total: nat)
    ensures newIndex == Rebuilt(docs, make)
    ensures processed == Processed(docs)
    ensures total == TotalTokens(docs, make)
  {
    newIndex := [];
    processed := 0;
    total := 0;
    ghost var done: seq<Doc> := [];
    var i := 0;
    while i < |docs|
      invariant 0 <= i <= |docs|
      invariant done == docs[..i]
      invariant newIndex == Rebuilt(done, make)
      invariant processed == Processed(done)
      invariant total == TotalTokens(done, make)
    {
      var d := docs[i];
      if d.content.Some? {
        RebuiltRead(done, d, make);
        var e := make(d.path, d.mtime, d.content.value);
        newIndex := Put(newIndex, d.path, e);
        processed := processed + 1;
        total := total + e.tokenCount;
      } else {
        RebuiltUnread(done, d, make);
      }
      assert docs[..i + 1] == docs[..i] + [d];
      done := done + [d];
      i := i + 1;
    }
    assert docs[..i] == docs;
  }

  lemma CandidatesStep(index: Index, score: Entry -> real, snippet: string -> string, i: nat)
    requires i < |index|
    ensures Candidates(index[..i + 1], score, snippet) ==
      if score(index[i].1) > 0.0 then Candidates(index[..i], score, snippet) + [Hit(index[i], score, snippet)]
      else Candidates(index[..i], score, snippet)
  {
    assert index[..i + 1][..i] == index[..i];
  }

  /** The scoring loop of `search`: the hits in index order. */
  method FindHits(index: Index, score: Entry -> real, snippet: string -> string) returns (hits: seq<SearchResult>)
    ensures hits == Candidates(index, score, snippet)
  {
    hits := [];
    var i := 0;
    while i < |index|
      invariant 0 <= i <= |index|
      invariant hits == Candidates(index[..i], score, snippet)
    {
      CandidatesStep(index, score, snippet, i);
      var item := index[i];
      var s := score(item.1);
      if s > 0.0 {
        hits := hits + [SearchResult(item.0, item.1.title, snippet(item.1.content), s, item.1.modifiedTime)];
      }
      i := i + 1;
    }
    assert index[..i] == index;
  }

  /** The ranking keeps at most `limit` hits (for a non-negative limit), by
      non-increasing score, each one of the hits; hits with equal scores
      keep their order, and the kept ones come first. */
  lemma RankedFacts(c: seq<SearchResult>, limit: int)
    ensures var r := Ranked(c, limit);
      (limit >= 0 ==> |r| <= limit) &&
      SortedDesc(r, ScoreOf) &&
      (forall x :: x in r ==> x in c) &&
      r == SortDesc(c, ScoreOf)[..|r|] &&
      forall v :: WithKey(SortDesc(c, ScoreOf), ScoreOf, v) == WithKey(c, ScoreOf, v)
  {
    var sorted := SortDesc(c, ScoreOf);
    SortDescFacts(c, ScoreOf);
    var r := SliceTo(sorted, limit);
    forall x | x in r ensures x in c {
      assert x in multiset(sorted);
    }
  }

  /** A search returns nothing on an empty index or a blank query; otherwise
      at most `limit` hits (for a non-negative limit), by non-increasing
      score, each an index item sharing a term with the query, with its
      score and snippet. */
  lemma SearchFacts(st: Settings, index: Index, query: string, limit: int)
    ensures var r := SearchSpec(st, index, query, limit);
      (index == [] || Strip(query) == [] ==> r == []) &&
      (limit >= 0 ==> |r| <= limit) &&
      SortedDesc(r, ScoreOf) &&
      forall x :: x in r ==>
        x.score > 0.0 &&
        exists k :: 0 <= k < |index| && x == Hit(index[k], Scorer(TokenizeSpec(st, query)), Snipper(st, query)) &&
          exists t :: t in TokenizeSpec(st, query) && t in index[k].1.tokens
  {
    if index != [] && Strip(query) != [] {
      var qt := TokenizeSpec(st, query);
      var c := Candidates(index, Scorer(qt), Snipper(st, query));
      RankedFacts(c, limit);
      CandidatesFacts(index, Scorer(qt), Snipper(st, query));
      forall x | x in Ranked(c, limit)
        ensures exists k ::
                  0 <= k < |index| && x == Hit(index[k], Scorer(qt), Snipper(st, query)) &&
                  exists t :: t in qt && t in index[k].1.tokens
      {
        var k :| 0 <= k < |index| && x == Hit(index[k], Scorer(qt), Snipper(st, query));
        ScorePositive(qt, index[k].1);
      }
    }
  }

  /** Every entry sharing a term with the query scores above zero, so its
      hit is among the candidates that are sorted and cut to `limit`. */
  lemma SearchComplete(st: Settings, index: Index, query: string, k: nat)
    requires Strip(query) != [] && k < |index|
    requires exists t :: t in TokenizeSpec(st, query) && t in index[k].1.tokens
    ensures Hit(index[k], Scorer(TokenizeSpec(st, query)), Snipper(st, query)) in
      Candidates(index, Scorer(TokenizeSpec(st, query)), Snipper(st, query))
  {
    var qt := TokenizeSpec(st, query);
    ScorePositive(qt, index[k].1);
    CandidatesFacts(index, Scorer(qt), Snipper(st, query));
  }

  // ---------------------------------------------------------------------
  // Suggestions

  /** The title test: the lower-cased query occurs in the lower-cased title. */
  predicate TitleMatches(title: string, query: string)
  {
    Contains(Lower(title), Lower(query))
  }

  /** The token test: it starts with the query, ignoring case, and is longer. */
  predicate TokenSuggests(t: string, query: string)
  {
    StartsWith(Lower(t), Lower(query)) && |t| > |query|
  }

  /** `suggestions.add(x)` on a set kept as a list without repeats. */
  function Insert(acc: seq<string>, x: string): (r: seq<string>)
    ensures forall y :: y in r <==> y in acc || y == x
  {
    if x in acc then acc else acc + [x]
  }

  /** The token loop for one entry, over the tokens ts. */
  function AddTokens(acc: seq<string>, ts: seq<string>, query: string): seq<string>
    decreases |ts|
  {
    if ts == [] then acc
    else
      var a := AddTokens(acc, ts[..|ts| - 1], query);
      if TokenSuggests(ts[|ts| - 1], query) then Insert(a, ts[|ts| - 1]) else a
  }

  /** One iteration of the suggestion loop: the title, then the tokens. */
  function AddEntry(acc: seq<string>, e: Entry, query: string): seq<string>
  {
    var a := if TitleMatches(e.title, query) then Insert(acc, e.title) else acc;
    AddTokens(a, e.tokens, query)
  }

  /** The suggestion loop, which stops after the first entry that brings the
      number of suggestions to `limit`. */
  function Collect(acc: seq<string>, items: Index, query: string, limit: int): seq<string>
    decreases |items|
  {
    if items == [] then acc
    else
      var a := AddEntry(acc, items[0].1, query);
      if |a| >= limit then a else Collect(a, items[1..], query, limit)
  }

  /** `get_search_suggestions(query, limit)`. */
  function SuggestSpec(index: Index, query: string, limit: int): seq<string>
  {
    if index == [] || Strip(query) == [] then []
    else SliceTo(SortByLength(Collect([], index, query, limit)), limit)
  }

  lemma AddTokensStep(acc: seq<string>, done: seq<string>, t: string, query: string)
    ensures AddTokens(acc, done + [t], query) ==
      if TokenSuggests(t, query) then Insert(AddTokens(acc, done, query), t) else AddTokens(acc, done, query)
  {
    assert (done + [t])[..|done|] == done;
  }

  /** The token loop of `get_search_suggestions` for one entry. */
  method AddMatchingTokens(found: seq<string>, tokens: seq<string>, query: string) returns (r: seq<string>)
    ensures r == AddTokens(found, tokens, query)
  {
    r := found;
    ghost var done: seq<string> := [];
    var j := 0;
    while j < |tokens|
      invariant 0 <= j <= |tokens| && done == tokens[..j]
      invariant r == AddTokens(found, done, query)
    {
      AddTokensStep(found, done, tokens[j], query);
      if TokenSuggests(tokens[j], query) {
        r := Insert(r, tokens[j]);
      }
      done := done + [tokens[j]];
      j := j + 1;
    }
    assert tokens[..j] == tokens;
  }

  lemma CollectStep(acc: seq<string>, items: Index, i: nat, query: string, limit: int)
    requires i < |items|
    ensures Collect(acc, items[i..], query, limit) ==
      var a := AddEntry(acc, items[i].1, query);
      if |a| >= limit then a else Collect(a, items[i + 1..], query, limit)
  {
    assert items[i..][0] == items[i] && items[i..][1..] == items[i + 1..];
  }

  /** The entry loop of `get_search_suggestions`, which stops once `limit`
      suggestions are found. */
  method CollectSuggestions(index: Index, query: string, limit: int) returns (found: seq<string>)
    ensures found == Collect([], index, query, limit)
  {
    found := [];
    var i := 0;
    while i < |index|
      invariant 0 <= i <= |index|
      invariant Collect(found, index[i..], query, limit) == Collect([], index, query, limit)
    {
      var e := index[i].1;
      CollectStep(found, index, i, query, limit);
      if TitleMatches(e.title, query) {
        found := Insert(found, e.title);
      }
      found := AddMatchingTokens(found, e.tokens, query);
      i := i + 1;
      if |found| >= limit {
        break;
      }
    }
  }

  /** x is a title or a token of some entry that the suggestion tests accept. */
  predicate Suggests(items: Index, query: string, x: string)
  {
    exists k :: 0 <= k < |items| &&
      ((x == items[k].1.title && TitleMatches(x, query)) || (x in items[k].1.tokens && TokenSuggests(x, query)))
  }

  lemma {:induction false} AddTokensFacts(acc: seq<string>, ts: seq<string>, query: string)
    ensures forall x :: x in AddTokens(acc, ts, query) <==> x in acc || (x in ts && TokenSuggests(x, query))
    decreases |ts|
  {
    if ts != [] {
      var init := ts[..|ts| - 1];
      AddTokensFacts(acc, init, query);
      assert ts == init + [ts[|ts| - 1]];
    }
  }

  lemma AddEntryFacts(acc: seq<string>, e: Entry, query: string)
    ensures forall x :: x in AddEntry(acc, e, query) <==>
      x in acc || (x == e.title && TitleMatches(x, query)) || (x in e.tokens && TokenSuggests(x, query))
  {
    var a := if TitleMatches(e.title, query) then Insert(acc, e.title) else acc;
    AddTokensFacts(a, e.tokens, query);
  }

  /** Everything collected was there before or passes a suggestion test on
      some entry; what was there before stays; and when the loop ends with
      fewer than `limit` suggestions, it has every title and token that
      passes. */
  lemma {:induction false} CollectFacts(acc: seq<string>, items: Index, query: string, limit: int)
    ensures forall x :: x in Collect(acc, items, query, limit) ==> x in acc || Suggests(items, query, x)
    ensures forall x :: x in acc ==> x in Collect(acc, items, query, limit)
    ensures |Collect(acc, items, query, limit)| < limit ==>
      forall x :: Suggests(items, query, x) ==> x in Collect(acc, items, query, limit)
    decreases |items|
  {
    if items != [] {
      var e := items[0].1;
      var a := AddEntry(acc, e, query);
      var rest := items[1..];
      AddEntryFacts(acc, e, query);
      CollectFacts(a, rest, query, limit);
      var r := Collect(acc, items, query, limit);
      forall x | x in r ensures x in acc || Suggests(items, query, x) {
        if x !in acc {
          if x in a {
            assert Suggests(items, query, x) by { assert items[0].1 == e; }
          } else {
            var k :| 0 <= k < |rest| &&
              ((x == rest[k].1.title && TitleMatches(x, query)) || (x in rest[k].1.tokens && TokenSuggests(x, query)));
            assert rest[k] == items[k + 1];
          }
        }
      }
      if |r| < limit {
        forall x | Suggests(items, query, x) ensures x in r {
          var k :| 0 <= k < |items| &&
            ((x == items[k].1.title && TitleMatches(x, query)) || (x in items[k].1.tokens && TokenSuggests(x, query)));
          if k > 0 {
            assert items[k] == rest[k - 1];
            assert Suggests(rest, query, x);
          }
        }
      }
    }
  }

  lemma {:induction false} SortByLengthSize(s: seq<string>)
    ensures |SortByLength(s)| <= |s|
    decreases |s|
  {
    if s != [] {
      SortByLengthSize(s[..|s| - 1]);
      InsertKeySize(s[|s| - 1], SortByLength(s[..|s| - 1]));
    }
  }

  lemma {:induction false} InsertKeySize(x: string, r: seq<string>)
    ensures |InsertKey(x, r)| <= |r| + 1
    decreases |r|
  {
    if r != [] && r[0] != x && KeyLess(r[0], x) {
      InsertKeySize(x, r[1..]);
    }
  }

  /** The suggestions: distinct and strictly increasing by (length, text), at
      most `limit` of them (for a non-negative limit), each a title or token
      that passes its test; and when the loop did not stop early, every
      title and token that passes is suggested, up to `limit`. */
  lemma SuggestFacts(index: Index, query: string, limit: int)
    ensures var r := SuggestSpec(index, query, limit);
      StrictlySorted(r) &&
      (index == [] || Strip(query) == [] ==> r == []) &&
      (limit >= 0 ==> |r| <= limit) &&
      (forall x :: x in r ==> Suggests(index, query, x))
    ensures index != [] && Strip(query) != [] && |Collect([], index, query, limit)| < limit ==>
      forall x :: Suggests(index, query, x) ==> x in SuggestSpec(index, query, limit)
  {
    if index != [] && Strip(query) != [] {
      var c := Collect([], index, query, limit);
      var sorted := SortByLength(c);
      var r := SliceTo(sorted, limit);
      SortByLengthFacts(c);
      CollectFacts([], index, query, limit);
      assert StrictlySorted(r) by {
        forall i, j | 0 <= i < j < |r| ensures KeyLess(r[i], r[j]) {
          assert r[i] == sorted[i] && r[j] == sorted[j];
        }
      }
      forall x | x in r ensures Suggests(index, query, x) {
        var i :| 0 <= i < |r| && r[i] == x;
        assert sorted[i] == x;
      }
      if |c| < limit {
        SortByLengthSize(c);
        assert r == sorted;
      }
    }
  }

  // ---------------------------------------------------------------------
  // Pruning

  /** The loop of `optimize_index`: the items whose file still exists, each
      with the file's current modification time. */
  function Pruned(index: Index, exists_: string -> bool, mtimeOf: string -> real): Index
    decreases |index|
  {
    if index == [] then []
    else
      var acc := Pruned(index[..|index| - 1], exists_, mtimeOf);
      var item := index[|index| - 1];
      if exists_(item.0) then Put(acc, item.0, item.1.(modifiedTime := mtimeOf(item.0))) else acc
  }

  /** `invalid_count`: the items whose file is gone. */
  function InvalidCount(index: Index, exists_: string -> bool): nat
    decreases |index|
  {
    if index == [] then 0
    else InvalidCount(index[..|index| - 1], exists_) + (if exists_(index[|index| - 1].0) then 0 else 1)
  }

  /** The keys of p whose file exists, in order. */
  function KeptKeys(ks: seq<string>, exists_: string -> bool): seq<string>
    decreases |ks|
  {
    if ks == [] then []
    else KeptKeys(ks[..|ks| - 1], exists_) + (if exists_(ks[|ks| - 1]) then [ks[|ks| - 1]] else [])
  }

  lemma PrunedStep(done: Index, item: (string, Entry), exists_: string -> bool, mtimeOf: string -> real)
    ensures Pruned(done + [item], exists_, mtimeOf) ==
      if exists_(item.0) then Put(Pruned(done, exists_, mtimeOf), item.0, item.1.(modifiedTime := mtimeOf(item.0)))
      else Pruned(done, exists_, mtimeOf)
    ensures InvalidCount(done + [item], exists_) == InvalidCount(done, exists_) + if exists_(item.0) then 0 else 1
  {
    assert (done + [item])[..|done|] == done;
  }

  /** The loop of `optimize_index`: the kept items and `invalid_count`. */
  method PruneAll(index: Index, exists_: string -> bool, mtimeOf: string -> real)
    returns (valid: Index, invalid: nat)
    ensures valid == Pruned(index, exists_, mtimeOf)
    ensures invalid == InvalidCount(index, exists_)
  {
    valid := [];
    invalid := 0;
    ghost var done: Index := [];
    var i := 0;
    while i < |index|
      invariant 0 <= i <= |index| && done == index[..i]
      invariant valid == Pruned(done, exists_, mtimeOf)
      invariant invalid == InvalidCount(done, exists_)
    {
      var item := index[i];
      PrunedStep(done, item, exists_, mtimeOf);
      if exists_(item.0) {
        valid := Put(valid, item.0, item.1.(modifiedTime := mtimeOf(item.0)));
      } else {
        invalid := invalid + 1;
      }
      done := done + [item];
      i := i + 1;
    }
    assert index[..i] == index;
  }

  lemma KeysAppend<K, V>(p: seq<(K, V)>, x: (K, V))
    ensures Keys(p + [x]) == Keys(p) + [x.0]
  {
    var ks := Keys(p) + [x.0];
    forall i | 0 <= i < |ks| ensures Keys(p + [x])[i] == ks[i] {
    }
  }

  lemma KeysInit(index: Index)
    requires index != []
    ensures Keys(index) == Keys(index[..|index| - 1]) + [index[|index| - 1].0]
  {
    assert index == index[..|index| - 1] + [index[|index| - 1]];
    KeysAppend(index[..|index| - 1], index[|index| - 1]);
  }

  lemma UniqueAppend<T>(s: seq<T>, x: T)
    requires Unique(s + [x])
    ensures Unique(s) && x !in s
  {
    forall i, j | 0 <= i < j < |s| ensures s[i] != s[j] {
      assert (s + [x])[i] == s[i] && (s + [x])[j] == s[j];
    }
    forall i | 0 <= i < |s| ensures s[i] != x {
      assert (s + [x])[i] == s[i] && (s + [x])[|s|] == x;
    }
  }

  /** Pruning keeps the keys whose file exists, in order and each once; the
      kept and the dropped add up to the old size. */
  lemma {:induction false} PrunedKeys(index: Index, exists_: string -> bool, mtimeOf: string -> real)
    requires Unique(Keys(index))
    ensures Keys(Pruned(index, exists_, mtimeOf)) == KeptKeys(Keys(index), exists_)
    ensures Unique(Keys(Pruned(index, exists_, mtimeOf)))
    ensures |Pruned(index, exists_, mtimeOf)| + InvalidCount(index, exists_) == |index|
    decreases |index|
  {
    if index != [] {
      var init := index[..|index| - 1];
      var item := index[|index| - 1];
      var acc := Pruned(init, exists_, mtimeOf);
      KeysInit(index);
      UniqueAppend(Keys(init), item.0);
      PrunedKeys(init, exists_, mtimeOf);
      if exists_(item.0) {
        var e := item.1.(modifiedTime := mtimeOf(item.0));
        KeptNot(Keys(init), exists_, item.0);
        PutUnique(acc, item.0, e);
      }
    }
  }

  lemma {:induction false} KeptNot(ks: seq<string>, exists_: string -> bool, k: string)
    requires k !in ks
    ensures k !in KeptKeys(ks, exists_)
    decreases |ks|
  {
    if ks != [] {
      KeptNot(ks[..|ks| - 1], exists_, k);
      assert ks[|ks| - 1] in ks;
    }
  }

  /** Pruning keeps each item whose file exists unchanged apart from its
      modification time, and drops the others. */
  lemma {:induction false} PrunedGet(index: Index, exists_: string -> bool, mtimeOf: string -> real, p: string)
    requires Unique(Keys(index))
    ensures Get(Pruned(index, exists_, mtimeOf), p) ==
      if p in Keys(index) && exists_(p) then Some(Get(index, p).value.(modifiedTime := mtimeOf(p))) else None
    decreases |index|
  {
    if index != [] {
      var init := index[..|index| - 1];
      var item := index[|index| - 1];
      var acc := Pruned(init, exists_, mtimeOf);
      KeysInit(index);
      UniqueAppend(Keys(init), item.0);
      PrunedGet(init, exists_, mtimeOf, p);
      assert index == init + [item];
      GetAppend(init, item, p);
      if exists_(item.0) {
        PutGet(acc, item.0, item.1.(modifiedTime := mtimeOf(item.0)), p);
      }
    }
  }

  lemma GetAppend<K, V>(p: seq<(K, V)>, x: (K, V), k: K)
    requires x.0 !in Keys(p)
    ensures Get(p + [x], k) == if k == x.0 then Some(x.1) else Get(p, k)
  {
    PutNew(p, x.0, x.1);
    PutGet(p, x.0, x.1, k);
  }

  // ---------------------------------------------------------------------
  // Statistics

  /** The `token_frequency` loop over the items, from the table acc. */
  function FreqInto(acc: seq<(string, nat)>, items: Index): seq<(string, nat)>
    decreases |items|
  {
    if items == [] then acc else FreqInto(AddAll(acc, items[0].1.invertedIndex), items[1..])
  }

  /** `token_frequency`: every term with its count summed over all entries. */
  function TokenFrequency(index: Index): seq<(string, nat)>
  {
    FreqInto([], index)
  }

  /** The counts stored under t in all the entries' tables, added up. */
  function TotalFor(items: Index, t: string): nat
    decreases |items|
  {
    if items == [] then 0 else SumFor(items[0].1.invertedIndex, t) + TotalFor(items[1..], t)
  }

  /** Some entry's table holds t. */
  predicate InSomeTable(items: Index, t: string)
  {
    exists k :: 0 <= k < |items| && t in Keys(items[k].1.invertedIndex)
  }

  function CountOf(x: (string, nat)): real { x.1 as real }

  /** The statistics record `export_index_stats` returns. */
  datatype Stats = Stats(
    metadata: Metadata,
    topTokens: seq<(string, nat)>,
    averageTokensPerDocument: real,
    uniqueTokens: nat,
    indexSizeKb: real)

  /** The average the metadata gives: 0 when there are no documents. */
  function Average(m: Metadata): real
  {
    if m.documentCount > 0 then m.tokenCount as real / m.documentCount as real else 0.0
  }

  /** `export_index_stats`, with the size of the index file (None when it is
      missing). */
  function StatsSpec(m: Metadata, index: Index, indexFileSize: Option<nat>): Stats
  {
    var freq := TokenFrequency(index);
    Stats(m, SliceTo(SortDesc(freq, CountOf), 20), Average(m), |freq|,
          if indexFileSize.Some? then indexFileSize.value as real / 1024.0 else 0.0)
  }

  lemma {:induction false} FreqIntoFacts(acc: seq<(string, nat)>, items: Index)
    requires Unique(Keys(acc))
    ensures Unique(Keys(FreqInto(acc, items)))
    ensures forall t :: t in Keys(FreqInto(acc, items)) <==> t in Keys(acc) || InSomeTable(items, t)
    ensures forall t :: Count(FreqInto(acc, items), t) == Count(acc, t) + TotalFor(items, t)
    decreases |items|
  {
    if items != [] {
      var a := AddAll(acc, items[0].1.invertedIndex);
      AddAllFacts(acc, items[0].1.invertedIndex);
      FreqIntoFacts(a, items[1..]);
      forall t ensures t in Keys(FreqInto(acc, items)) <==> t in Keys(acc) || InSomeTable(items, t) {
        if InSomeTable(items, t) && t !in Keys(items[0].1.invertedIndex) {
          var k :| 0 <= k < |items| && t in Keys(items[k].1.invertedIndex);
          assert items[k] == items[1..][k - 1];
        }
        if InSomeTable(items[1..], t) {
          var k :| 0 <= k < |items[1..]| && t in Keys(items[1..][k].1.invertedIndex);
          assert items[1..][k] == items[k + 1];
        }
      }
    }
  }

  /** The number of occurrences of t in all the entries' token lists. */
  function Occurrences(items: Index, t: string): nat
    decreases |items|
  {
    if items == [] then 0 else multiset(items[0].1.tokens)[t] + Occurrences(items[1..], t)
  }

  /** For entries `build_index` made, the summed table holds each term of
      any entry once, with its number of occurrences over all documents. */
  lemma {:induction false} TotalForValid(items: Index, t: string)
    requires forall k :: 0 <= k < |items| ==> EntryValid(items[k].1)
    ensures TotalFor(items, t) == Occurrences(items, t)
    decreases |items|
  {
    if items != [] {
      assert EntryValid(items[0].1);
      ValidCounts(items[0].1);
      SumForUnique(items[0].1.invertedIndex, t);
      assert forall k :: 0 <= k < |items[1..]| ==> items[1..][k] == items[k + 1];
      TotalForValid(items[1..], t);
    }
  }

  /** The frequency table holds each term of any entry's table once, with
      its counts over all entries added up; `unique_tokens` is the number of
      distinct terms. */
  lemma FrequencyFacts(m: Metadata, index: Index, indexFileSize: Option<nat>)
    ensures Unique(Keys(TokenFrequency(index)))
    ensures forall t :: t in Keys(TokenFrequency(index)) <==> InSomeTable(index, t)
    ensures forall t :: Count(TokenFrequency(index), t) == TotalFor(index, t)
    ensures StatsSpec(m, index, indexFileSize).uniqueTokens == |Keys(TokenFrequency(index))|
  {
    FreqIntoFacts([], index);
  }

  /** The top list holds up to 20 pairs of the frequency table by
      non-increasing count, and no term left out has a larger count than one
      kept. */
  lemma TopTokensFacts(m: Metadata, index: Index, indexFileSize: Option<nat>)
    ensures var top := StatsSpec(m, index, indexFileSize).topTokens;
      var freq := TokenFrequency(index);
      |top| == Min(20, |freq|) &&
      SortedDesc(top, CountOf) &&
      (forall x :: x in top ==> x in freq) &&
      (forall x, y :: x in top && y in freq && y !in top ==> x.1 >= y.1)
  {
    var freq := TokenFrequency(index);
    TopFacts(freq, CountOf, 20);
  }

  /** The first n of s by non-increasing key: sorted, taken from s, and no
      element left out has a larger key than one kept. */
  lemma TopFacts<T>(s: seq<T>, key: T -> real, n: nat)
    ensures var top := SliceTo(SortDesc(s, key), n);
      |top| == Min(n, |s|) &&
      SortedDesc(top, key) &&
      (forall x :: x in top ==> x in s) &&
      (forall x, y :: x in top && y in s && y !in top ==> key(x) >= key(y))
  {
    var sorted := SortDesc(s, key);
    SortDescFacts(s, key);
    assert |sorted| == |s| by {
      assert |multiset(sorted)| == |multiset(s)|;
    }
    var top := SliceTo(sorted, n);
    forall x | x in top ensures x in s {
      assert x in multiset(sorted);
    }
    forall x, y | x in top && y in s && y !in top ensures key(x) >= key(y) {
      TopDominates(sorted, key, |top|, x, y);
    }
  }

  lemma TopDominates<T>(sorted: seq<T>, key: T -> real, n: nat, x: T, y: T)
    requires SortedDesc(sorted, key) && n <= |sorted|
    requires x in sorted[..n] && y in multiset(sorted) && y !in sorted[..n]
    ensures key(x) >= key(y)
  {
    var i :| 0 <= i < n && sorted[..n][i] == x;
    var j :| 0 <= j < |sorted| && sorted[j] == y;
  }

  // ---------------------------------------------------------------------
  // The object

  /** The inner loop of `export_index_stats`: each (token, count) of one
      entry added into the running totals, `if token not in token_frequency:
      token_frequency[token] = 0` and then `token_frequency[token] += count`. */
  method AddCounts(freq: seq<(string, nat)>, items: seq<(string, nat)>) returns (r: seq<(string, nat)>)
    ensures r == AddAll(freq, items)
  {
    r := freq;
    var j := 0;
    while j < |items|
      invariant 0 <= j <= |items|
      invariant AddAll(r, items[j..]) == AddAll(freq, items)
    {
      assert items[j..][0] == items[j] && items[j..][1..] == items[j + 1..];
      r := Increment(r, items[j].0, items[j].1);
      j := j + 1;
    }
    assert items[j..] == [];
  }

  class SearchIndexOptimizer {
    var index: Index
    var metadata: Metadata

    /** A dictionary has each key once. */
    predicate Valid()
      reads this
    {
      Unique(Keys(index))
    }

    /** `__init__`: the stored index and metadata, or an empty index and the
        default metadata when none is stored or it could not be read. */
    constructor(storedIndex: Option<Index>, storedMetadata: Option<Metadata>, now: string)
      requires storedIndex.Some? ==> Unique(Keys(storedIndex.value))
      ensures Valid()
      ensures index == if storedIndex.Some? then storedIndex.value else []
      ensures metadata == if storedMetadata.Some? then storedMetadata.value else DefaultMetadata(now)
    {
      index := if storedIndex.Some? then storedIndex.value else [];
      metadata := if storedMetadata.Some? then storedMetadata.value else DefaultMetadata(now);
    }

    /** `_save_metadata`: stamps the update time, then reports whether the
        file was written. */
    method SaveMetadata(now: string, written: bool) returns (ok: bool)
      modifies this
      ensures index == old(index) && metadata == old(metadata).(lastUpdated := now)
      ensures ok == written
    {
      metadata := metadata.(lastUpdated := now);
      ok := written;
    }

    /** `build_index(force_rebuild)` over the files found by the walk.
        `indexSaved` and `metadataSaved` say whether writing each file
        succeeds; the metadata file is written only after the index file. */
    method BuildIndex(force: bool, docs: seq<Doc>, stripMarkup: string -> string, now: string,
                      indexSaved: bool, metadataSaved: bool) returns (ok: bool)
      requires Valid()
      modifies this
      ensures Valid()
      ensures !force && old(index) != [] && (forall i :: 0 <= i < |docs| ==> !Stale(old(index), docs[i])) ==>
        ok && index == old(index) && metadata == old(metadata)
      ensures force || old(index) == [] || (exists i :: 0 <= i < |docs| && Stale(old(index), docs[i])) ==>
        index == Rebuilt(docs, EntryMaker(old(metadata).settings, stripMarkup, now)) &&
        metadata == old(metadata).(documentCount := Processed(docs),
                                   tokenCount := TotalTokens(docs, EntryMaker(old(metadata).settings, stripMarkup, now)),
                                   lastUpdated := now) &&
        ok == (indexSaved && metadataSaved)
    {
      if !force && index != [] {
        var needsUpdate := AnyStale(index, docs);
        if !needsUpdate {
          return true;
        }
      }
      var st := metadata.settings;
      var newIndex, processed, total := RebuildAll(docs, EntryMaker(st, stripMarkup, now));
      RebuiltKeys(docs, EntryMaker(st, stripMarkup, now));
      index := newIndex;
      metadata := metadata.(documentCount := processed, tokenCount := total, lastUpdated := now);
      ok := indexSaved;
      if ok {
        ok := SaveMetadata(now, metadataSaved);
      }
    }

    /** `search(query, limit)`. */
    method Search(query: string, limit: int) returns (results: seq<SearchResult>)
      ensures results == SearchSpec(metadata.settings, index, query, limit)
    {
      if index == [] || Strip(query) == [] {
        return [];
      }
      var st := metadata.settings;
      var qt := Tokenize(st, query);
      results := FindHits(index, Scorer(qt), Snipper(st, query));
      results := Ranked(results, limit);
    }

    /** `get_search_suggestions(query, limit)`. */
    method GetSearchSuggestions(query: string, limit: int) returns (r: seq<string>)
      ensures r == SuggestSpec(index, query, limit)
    {
      if index == [] || Strip(query) == [] {
        return [];
      }
      var found := CollectSuggestions(index, query, limit);
      r := SliceTo(SortByLength(found), limit);
    }

    /** `optimize_index` with the file system given as `exists_` and
        `mtimeOf`. */
    method OptimizeIndex(exists_: string -> bool, mtimeOf: string -> real, now: string,
                         indexSaved: bool, metadataSaved: bool) returns (ok: bool)
      requires Valid()
      modifies this
      ensures Valid()
      ensures index == Pruned(old(index), exists_, mtimeOf)
      ensures metadata == old(metadata).(documentCount := |index|,
                                         lastUpdated := if indexSaved then now else old(metadata).lastUpdated)
      ensures ok == (indexSaved && metadataSaved)
    {
      var valid, invalid := PruneAll(index, exists_, mtimeOf);
      PrunedKeys(index, exists_, mtimeOf);
      index := valid;
      metadata := metadata.(documentCount := |index|);
      ok := indexSaved;
      if ok {
        ok := SaveMetadata(now, metadataSaved);
      }
    }

    /** `export_index_stats`. */
    method ExportIndexStats(indexFileSize: Option<nat>) returns (stats: Stats)
      ensures stats == StatsSpec(metadata, index, indexFileSize)
    {
      var freq: seq<(string, nat)> := [];
      var i := 0;
      while i < |index|
        invariant 0 <= i <= |index|
        invariant FreqInto(freq, index[i..]) == TokenFrequency(index)
      {
        var items := index[i].1.invertedIndex;
        assert index[i..][0] == index[i] && index[i..][1..] == index[i + 1..];
        freq := AddCounts(freq, items);
        i := i + 1;
      }
      assert index[i..] == [];
      var top := SliceTo(SortDesc(freq, CountOf), 20);
      var size := if indexFileSize.Some? then indexFileSize.value as real / 1024.0 else 0.0;
      stats := Stats(metadata, top, Average(metadata), |freq|, size);
    }
  }
}
