# Search index and access control of a static documentation site

This project models two classes of the site's tooling and proves their
behaviour in Dafny.

- `SearchIndexOptimizer` (scripts/search_index_optimizer.py) keeps a full-text
  index of the site's Markdown documents. Its parts:
  - it tokenizes mixed Chinese/ASCII text, with a stop-word filter and a
    minimum token length;
  - it builds one entry per document: title, 1000-character summary, token
    list and per-term counts;
  - it rebuilds only when a document is new or newer than its entry;
  - it scores, ranks and truncates search results;
  - it cuts a snippet around the query and highlights the query terms;
  - it suggests titles and tokens, prunes entries whose file is gone, and
    exports statistics.
- `AccessControlConfig` (scripts/access_control_config.py) keeps a JSON
  configuration. Its parts:
  - the built-in defaults, merged recursively with the stored file and with
    updates;
  - a role table with a default role, and `prefix:all` wildcard permissions;
  - per-role and per-user permission checks, and the union of several roles'
    permissions;
  - adding a role, which refuses a duplicate.

Modules, one per file:

| file | module | what it holds |
|---|---|---|
| pytext.dfy | `PyText` | `Option`, Python's `str.strip`, `lower` (ASCII), `find`, `startswith`/`endswith` and slicing |
| ordmap.dfy | `OrderedMaps` | an insertion-ordered dict as a sequence of pairs: lookup, assignment, counting |
| tokenizer.dfy | `Tokenizer` | the settings record, `_tokenize`, `_tokenize_non_chinese`, `_remove_stop_words` |
| entries.dfy | `Entries` | the index entry, `_extract_title`, the whitespace normalisation, the entry built per document |
| sorting.dfy | `Sorting` | the stable descending sort of results and the `(len, str)` order of suggestions |
| ranking.dfy | `Ranking` | `_calculate_relevance_score` and `_generate_snippet` |
| optimizer.dfy | `IndexOptimizer` | the `SearchIndexOptimizer` class and the specification functions of its loops |
| access_control.dfy | `AccessControl` | the JSON value, the merge, the defaults, the permission rules and the `AccessControlConfig` class |

Modelling choices:

- **Dicts.** A Python dict is a sequence of `(key, value)` pairs with distinct
  keys, kept in insertion order. That order decides the tie order of search
  results and where the suggestion loop stops.
- **Loops.** Each loop of the source is a `method` with a `while` loop. It is
  proved equal to a recursive specification function, and the source's
  promises are proved as lemmas about that function.
- **Classes.** Both classes are Dafny classes. `build_index`,
  `optimize_index`, `add_role` and `update_config` change their fields under
  `modifies this`.
- **Outside world.** The directory walk is an input sequence of documents.
  Each document has a path, an mtime and its content, or `None` when reading
  failed. File existence and mtimes are function parameters, clocks are a
  `now` string, and whether a save succeeded is a boolean parameter.
- **Scores** are `real`.

## Model

| member | source | states |
|---|---|---|
| PyText.Lower | scripts/search_index_optimizer.py:463-464 | `lower()`: same length, each ASCII capital moved to lower case, every other character kept |
| PyText.Find | scripts/search_index_optimizer.py:466 | `find`: -1 exactly when the pattern does not occur, otherwise the first index where it occurs |
| PyText.Strip | scripts/search_index_optimizer.py:151 | `strip()`: the result neither starts nor ends with whitespace and is no longer than the input |
| PyText.StripIsSlice | scripts/search_index_optimizer.py:151 | `strip()` returns a contiguous slice of its input |
| PyText.StripNoop | scripts/search_index_optimizer.py:151 | a string without outer whitespace is left unchanged by `strip()` |
| PyText.StripIdempotent | scripts/search_index_optimizer.py:151 | stripping twice is stripping once |
| PyText.SliceTo | scripts/search_index_optimizer.py:301 | `s[:n]` is the prefix of length min(n, len), or len+n for negative n (never below 0) |
| Tokenizer.RemoveStopWords | scripts/search_index_optimizer.py:219-239 | the result is a subsequence of the input; a token whose lower-case form is a stop word never survives, and any other token survives as often as it occurs |
| Tokenizer.DropShort | scripts/search_index_optimizer.py:200-202 | the result is a subsequence of the input; a token shorter than `min_token_length` never survives, and any other token survives as often as it occurs |
| Tokenizer.Chars | scripts/search_index_optimizer.py:185 | `list(word)`: one single-character token per character, in order |
| Tokenizer.TokenizeSpec | scripts/search_index_optimizer.py:196-204 | every returned token is a scanned term of at least `min_token_length` characters; with stop-word removal on, none is a stop word; with segmentation off, all are ASCII letters and digits |
| Tokenizer.TokenizeOrder | scripts/search_index_optimizer.py:196-202 | the tokens of `_tokenize` are a subsequence of the scanned terms; a short token or, with removal on, a stop word occurs 0 times, and any other scanned term as often as it was scanned |
| Tokenizer.Tokenize | scripts/search_index_optimizer.py:153-204 | the `_tokenize` loop, with `last_end` and the strip of each gap, returns exactly the reference scan followed by the filters |
| Tokenizer.SegmentedScan | scripts/search_index_optimizer.py:168-190 | the `finditer` loop over CJK runs returns exactly the reference scan of the whole text |
| Tokenizer.ScanRun | scripts/search_index_optimizer.py:171-187 | one loop iteration emits the gap's ASCII words and the CJK run's terms and moves past the run |
| Tokenizer.GapStep | scripts/search_index_optimizer.py:173-176 | the text before a CJK run contributes exactly its ASCII words |
| Tokenizer.CjkStep | scripts/search_index_optimizer.py:177-187 | a CJK run of at most two characters is one term; a longer run gives the whole run and then one term per character; the scan resumes after the run |
| Tokenizer.TailStep | scripts/search_index_optimizer.py:188-190 | the remainder after the last CJK run contributes exactly its ASCII words |
| Tokenizer.StripKeepsRuns | scripts/search_index_optimizer.py:174-176 | stripping a gap before `findall` loses no word |
| Tokenizer.RunLen | scripts/search_index_optimizer.py:167 | the length of the maximal run of one character class at the start |
| Tokenizer.AlnumRunsShape | scripts/search_index_optimizer.py:206-217 | every `[a-zA-Z0-9]+` match is a maximal ASCII letter/digit run of the text |
| Tokenizer.LexShape | scripts/search_index_optimizer.py:165-190 | every scanned token is a maximal ASCII run, a maximal CJK run, or a single character of a CJK run longer than 2 |
| Tokenizer.RawTokensAreTerms | scripts/search_index_optimizer.py:180-194 | every raw token is a non-empty run of one class; with segmentation off, no CJK character appears |
| Tokenizer.TokenizeShape | scripts/search_index_optimizer.py:153-217 | every token of `_tokenize` comes from the scan of the text; with segmentation off each is a whole ASCII run |
| Entries.FirstHeading | scripts/search_index_optimizer.py:359 | `re.search('^#\s+(.*?)$', MULTILINE)`: the first line start holding a level-one heading, or none |
| Entries.HeadingText | scripts/search_index_optimizer.py:359-361 | the heading's captured text holds no line break |
| Entries.SplitLines | scripts/search_index_optimizer.py:364 | `split('\n')`: at least one piece, none holding a line break |
| Entries.SplitJoin | scripts/search_index_optimizer.py:364 | joining the pieces of `split('\n')` with line breaks gives the content back |
| Entries.FirstTitleLine | scripts/search_index_optimizer.py:365-368 | the first line whose stripped form is non-empty and starts with neither `#` nor a code fence |
| Entries.TitleFromHeading | scripts/search_index_optimizer.py:359-361 | with a heading, the title is the first heading's text, stripped |
| Entries.TitleWithoutHeading | scripts/search_index_optimizer.py:363-370 | without a heading, the title is one of the first three lines (stripped, cut to 100) that qualifies, or "未命名文档" when none does |
| Entries.TitleIsOneLine | scripts/search_index_optimizer.py:349-370 | a title never holds a line break |
| Entries.TitleHasNoLeadingSpace | scripts/search_index_optimizer.py:359-368 | a title never starts with whitespace |
| Entries.Collapse | scripts/search_index_optimizer.py:147 | `re.sub('\s+', ' ')` is empty only for empty input, and starts with whitespace exactly when its input does |
| Entries.CollapseIsCollapsed | scripts/search_index_optimizer.py:147 | the result holds no whitespace other than single spaces between non-space characters |
| Entries.CollapseKeepsText | scripts/search_index_optimizer.py:147 | the non-space characters are unchanged, in order |
| Entries.CollapseNoop | scripts/search_index_optimizer.py:147 | already collapsed text is unchanged |
| Entries.NormalizeShape | scripts/search_index_optimizer.py:147-151 | collapse then strip gives collapsed text without outer whitespace and the same non-space characters |
| Entries.StripCollapsed | scripts/search_index_optimizer.py:147-151 | stripping collapsed text leaves it collapsed |
| Entries.NormalizeIdempotent | scripts/search_index_optimizer.py:147-151 | normalising twice is normalising once |
| Entries.StripKeepsText | scripts/search_index_optimizer.py:151 | `strip()` removes only whitespace |
| Entries.CountTerms | scripts/search_index_optimizer.py:314-319 | the counting loop builds exactly the count dict of the tokens |
| Entries.MakeEntry | scripts/search_index_optimizer.py:288-321 | builds exactly the entry of one document |
| Entries.EntryForFacts | scripts/search_index_optimizer.py:299-321 | an entry is valid: `token_count == len(tokens)`, counts as below, summary ≤ 1000; its tokens are a prefix of the tokenized text, at most `max_tokens_per_document` |
| Entries.EntryShape | scripts/search_index_optimizer.py:299-321 | the entry built from any text is valid, its tokens a prefix of the tokenized text, at most `max_tokens_per_document` of them |
| Entries.ValidCounts | scripts/search_index_optimizer.py:314-321 | in a valid entry the count dict's keys are exactly the distinct tokens, each count is the token's multiplicity, and the counts sum to `token_count` |
| OrderedMaps.Get | scripts/search_index_optimizer.py:263 | a dict lookup fails exactly when the key is absent |
| OrderedMaps.Put | scripts/search_index_optimizer.py:322 | `d[k] = v` keeps the key order and appends a new key at the end |
| OrderedMaps.PutGet | scripts/search_index_optimizer.py:322 | after `d[k] = v`, `d[k]` is v and every other key keeps its value |
| OrderedMaps.PutNew | scripts/search_index_optimizer.py:322 | assigning a new key appends exactly that pair |
| OrderedMaps.PutUnique | scripts/search_index_optimizer.py:322 | assignment keeps each key once |
| OrderedMaps.Increment | scripts/search_index_optimizer.py:317-319 | the two statements `if k not in d: d[k] = 0` and `d[k] += c` leave the dict as `Bump`, which OrderedMaps.BumpCount characterises |
| OrderedMaps.BumpCount | scripts/search_index_optimizer.py:317-319 | the counter idiom raises the count of k by c and leaves every other count unchanged |
| OrderedMaps.BumpNewKey | scripts/search_index_optimizer.py:317-319 | on a key the dict lacks, `d[k] = 0` makes `d[k] += c` read 0, and the result is the counter idiom's |
| OrderedMaps.SumBump | scripts/search_index_optimizer.py:319 | incrementing a count by c raises the sum of the counts by c |
| OrderedMaps.CountsFacts | scripts/search_index_optimizer.py:315-319 | the count dict has each token once, holds exactly the tokens, counts each token's multiplicity and sums to the number of tokens |
| OrderedMaps.AddAllFacts | scripts/search_index_optimizer.py:590-593 | adding one entry's counts into the totals gives each token its old total plus the entry's count |
| OrderedMaps.Dedup | scripts/search_index_optimizer.py:431-432 | `set(query_tokens)`: each token once, exactly the tokens of the query |
| OrderedMaps.Extensional | scripts/search_index_optimizer.py:322 | two dicts with the same key order and the same lookups are equal |
| Sorting.SortDescFacts | scripts/search_index_optimizer.py:409 | `sort(key, reverse=True)`: non-increasing by key, a permutation, and stable: the items of each key keep their order |
| Sorting.InsertWithKey | scripts/search_index_optimizer.py:409 | inserting an item puts it after every earlier item of equal key |
| Sorting.KeyLessOrder | scripts/search_index_optimizer.py:526 | the key `(len(x), x)` is a strict total order on strings |
| Sorting.SortByLengthFacts | scripts/search_index_optimizer.py:526 | `sorted(set, key=(len, x))`: strictly increasing, exactly the set's strings |
| Sorting.StrictlySortedUnique | scripts/search_index_optimizer.py:526 | two strictly sorted lists of the same strings are equal, so the suggestion order is fully determined |
| Ranking.Matched | scripts/search_index_optimizer.py:431 | `set(query_tokens) & doc_tokens`: exactly the query terms in the document, each once |
| Ranking.Coverage | scripts/search_index_optimizer.py:432 | the matched share of distinct query terms lies in [0, 1] and is positive exactly when something matched |
| Ranking.TermFrequency | scripts/search_index_optimizer.py:434-440 | the term-frequency sum is never negative |
| Ranking.TermFrequencyValid | scripts/search_index_optimizer.py:434-440 | for a valid entry the sum is the matched terms' occurrences divided by `token_count` |
| Ranking.TermFrequencyAtMostOne | scripts/search_index_optimizer.py:434-440 | for a valid entry the sum is at most 1 |
| Ranking.LengthNorm | scripts/search_index_optimizer.py:443 | `1/(1 + token_count/1000)` lies in (0, 1] |
| Ranking.WeightedSign | scripts/search_index_optimizer.py:446 | the weighted score is non-negative, and positive exactly when coverage or tf is |
| Ranking.WeightedAtMostOne | scripts/search_index_optimizer.py:446 | with all factors in [0, 1] the weighted score is at most 1 |
| Ranking.ScorePositive | scripts/search_index_optimizer.py:423-448 | the score is ≥ 0, and > 0 exactly when some query token is a document token |
| Ranking.ScoreAtMostOne | scripts/search_index_optimizer.py:423-448 | for a valid entry the score is at most 1 |
| Ranking.ScoreExample | scripts/search_index_optimizer.py:423-448 | query `api` against a two-token document containing `api` scores 400/501 |
| Ranking.ValidLookup | scripts/search_index_optimizer.py:437-439 | in a valid entry, the count dict holds each document token's multiplicity |
| Ranking.SameIsLowerEqual | scripts/search_index_optimizer.py:463-464 | equal ignoring case is equal after `lower()` |
| Ranking.MatchIsOccurrence | scripts/search_index_optimizer.py:466 | a case-insensitive match at i is an occurrence in the lower-cased strings at i |
| Ranking.FindFirstMatch | scripts/search_index_optimizer.py:466 | `content.lower().find(query.lower())` is the first case-insensitive occurrence |
| Ranking.AroundHoldsMatch | scripts/search_index_optimizer.py:469-477 | the window around an occurrence still contains it, and is at most query + 206 characters |
| Ranking.WindowFound | scripts/search_index_optimizer.py:466-477 | when the query occurs, the snippet is the ±100 window of its first occurrence, with `...` exactly where text was cut |
| Ranking.WindowNotFound | scripts/search_index_optimizer.py:478-482 | otherwise the snippet is the content unchanged when ≤ 200 characters, else its first 200 plus `...` |
| Ranking.ReplaceNoMatch | scripts/search_index_optimizer.py:487-488 | a case-insensitive `sub` without a match returns its input |
| Ranking.ReplaceGrows | scripts/search_index_optimizer.py:487-488 | `sub` with a longer replacement never shortens, and lengthens when the pattern occurs |
| Ranking.ReplaceChanges | scripts/search_index_optimizer.py:487-488 | `sub` with a longer replacement changes the text exactly when the pattern occurs |
| Ranking.Highlight | scripts/search_index_optimizer.py:485-488 | the loop as written: each query term in turn replaced, ignoring case, by `<mark>term</mark>` in the already highlighted text |
| Ranking.HighlightNoMatch | scripts/search_index_optimizer.py:485-488 | a snippet in which no query term occurs is left unchanged |
| Ranking.ReplaceInsideMark | scripts/search_index_optimizer.py:487-488 | replacing `api` in `<mark>api</mark>` marks it again |
| Ranking.RepeatedTermNests | scripts/search_index_optimizer.py:485-488 | the loop as written turns `api` with query terms `api api` into nested marks |
| Ranking.FirstHit | scripts/search_index_optimizer.py:485-488 | the first query term, in query order, occurring at the start of the text, or none when no non-empty term does |
| Ranking.PiecesText | scripts/search_index_optimizer.py:485-488 | one-pass highlighting only wraps occurrences: without the markup the pieces spell the snippet |
| Ranking.HitsAreTerms | scripts/search_index_optimizer.py:485-488 | every marked piece is a case-insensitive occurrence of a non-empty query term |
| Ranking.RepeatedTermsHarmless | scripts/search_index_optimizer.py:485-488 | in one pass, repeating the query terms changes nothing |
| Ranking.HighlightOnceNoMatch | scripts/search_index_optimizer.py:485-488 | in one pass, a snippet without query terms is unchanged |
| Ranking.HighlightOnceRepeated | scripts/search_index_optimizer.py:485-488 | in one pass, `api` with query terms `api api` gets a single mark |
| Ranking.HighlightOnceTermCase | scripts/search_index_optimizer.py:487-488 | as in the source, an occurrence in other case is replaced by the term as the query spells it |
| Ranking.GenerateSnippet | scripts/search_index_optimizer.py:450-490 | the snippet is the window, with each query token in turn replaced by its mark in the text earlier tokens already marked |
| Ranking.SnippetUnmarked | scripts/search_index_optimizer.py:485-488 | a window in which no query token occurs is returned unmarked |
| Ranking.GenerateSnippetOnce | scripts/search_index_optimizer.py:485-488 | the corrected snippet: the window with each occurrence of a query token marked once, in one pass |
| IndexOptimizer.AnyStale | scripts/search_index_optimizer.py:252-269 | the staleness loop reports an update exactly when some document is missing from the index or newer than its entry |
| IndexOptimizer.Paths | scripts/search_index_optimizer.py:252-256 | the walked relative paths, one per document, in walk order |
| IndexOptimizer.EntryMakerValid | scripts/search_index_optimizer.py:299-321 | every entry built has its count invariant and keeps the file's mtime |
| IndexOptimizer.RebuildAll | scripts/search_index_optimizer.py:276-331 | the rebuild loop returns exactly the rebuilt index, the number of readable documents and the sum of their token counts |
| IndexOptimizer.RebuiltKeys | scripts/search_index_optimizer.py:276-322 | the rebuilt index has each path once, exactly the readable documents' paths |
| IndexOptimizer.RebuiltValid | scripts/search_index_optimizer.py:299-322 | every rebuilt entry satisfies the entry invariant |
| IndexOptimizer.RebuiltCounts | scripts/search_index_optimizer.py:322-325 | with distinct paths the index has `processed_docs` entries, in walk order, and their token counts sum to `total_tokens` |
| IndexOptimizer.RebuiltGet | scripts/search_index_optimizer.py:304-322 | each readable document's entry is the one built from its path, mtime and content |
| IndexOptimizer.RebuildIsCurrent | scripts/search_index_optimizer.py:252-273 | right after a rebuild no readable document is stale |
| IndexOptimizer.FindHits | scripts/search_index_optimizer.py:393-406 | the scoring loop keeps, in index order, a result for every entry with a positive score |
| IndexOptimizer.CandidatesFacts | scripts/search_index_optimizer.py:394-406 | every candidate has a positive score and comes from an index entry, and every positive-scoring entry yields one |
| IndexOptimizer.RankedFacts | scripts/search_index_optimizer.py:409-411 | the ranked list is at most `limit` long, non-increasing by score, a prefix of the stable sort, and drawn from the candidates |
| IndexOptimizer.SearchFacts | scripts/search_index_optimizer.py:382-411 | empty index or blank query gives no results; otherwise at most `limit`, non-increasing by score, each positive and from an entry sharing a query token |
| IndexOptimizer.SearchComplete | scripts/search_index_optimizer.py:394-406 | every entry sharing a token with the query is a candidate |
| IndexOptimizer.AddMatchingTokens | scripts/search_index_optimizer.py:516-519 | the token loop adds exactly the tokens that start with the query, ignoring case, and are longer than it |
| IndexOptimizer.CollectSuggestions | scripts/search_index_optimizer.py:509-523 | the loop over entries, with its early stop, returns exactly the reference collection |
| IndexOptimizer.Insert | scripts/search_index_optimizer.py:513 | `set.add`: the set gains x and nothing else |
| IndexOptimizer.AddTokensFacts | scripts/search_index_optimizer.py:516-519 | the token loop adds exactly the tokens that qualify as suggestions and keeps everything collected before |
| IndexOptimizer.AddEntryFacts | scripts/search_index_optimizer.py:510-519 | one entry adds its title when the query occurs in it ignoring case, and its qualifying tokens |
| IndexOptimizer.CollectFacts | scripts/search_index_optimizer.py:509-523 | every collected string is a title or token suggestion; when the loop never reaches `limit`, all of them are collected |
| IndexOptimizer.SuggestFacts | scripts/search_index_optimizer.py:502-528 | suggestions are distinct, strictly ordered by (length, string), at most `limit`, empty for an empty index or blank query, and each a real suggestion |
| IndexOptimizer.PruneAll | scripts/search_index_optimizer.py:541-552 | the pruning loop returns exactly the surviving entries with refreshed mtimes and the number dropped |
| IndexOptimizer.PrunedKeys | scripts/search_index_optimizer.py:541-552 | the survivors are the entries whose file exists, in order, each once, and survivors plus dropped equals the old size |
| IndexOptimizer.PrunedGet | scripts/search_index_optimizer.py:547-550 | a surviving entry is the old entry with only `modified_time` changed; an entry whose file is gone disappears |
| IndexOptimizer.FreqIntoFacts | scripts/search_index_optimizer.py:588-593 | the frequency loop's totals have each token once and add each entry's counts |
| IndexOptimizer.AddCounts | scripts/search_index_optimizer.py:590-593 | the inner loop adds each (token, count) of one entry into the totals with the counter idiom |
| IndexOptimizer.TotalForValid | scripts/search_index_optimizer.py:589-593 | over valid entries, a token's total is its number of occurrences in all documents |
| IndexOptimizer.FrequencyFacts | scripts/search_index_optimizer.py:588-602 | `unique_tokens` is the number of distinct tokens of all count dicts, each with its summed count |
| IndexOptimizer.TopTokensFacts | scripts/search_index_optimizer.py:596 | `top_tokens` has min(20, distinct) pairs, non-increasing by count, none below a token left out |
| IndexOptimizer.TopFacts | scripts/search_index_optimizer.py:596 | the first n of a stable descending sort are the n largest |
| IndexOptimizer.SearchIndexOptimizer.constructor | scripts/search_index_optimizer.py:26-91 | the stored index, or empty; the stored metadata, or the defaults (version 1.0, counts 0, segmentation and stop words on, 10000 tokens, length 2) |
| IndexOptimizer.SearchIndexOptimizer.SaveMetadata | scripts/search_index_optimizer.py:104-114 | stamps `last_updated` and reports whether the file was written |
| IndexOptimizer.SearchIndexOptimizer.BuildIndex | scripts/search_index_optimizer.py:241-347 | a non-forced build of a non-empty index with nothing stale changes nothing and succeeds; otherwise the index is rebuilt, the counts set, and success is both saves |
| IndexOptimizer.SearchIndexOptimizer.Search | scripts/search_index_optimizer.py:372-411 | returns exactly the specified ranked results |
| IndexOptimizer.SearchIndexOptimizer.GetSearchSuggestions | scripts/search_index_optimizer.py:492-528 | returns exactly the specified suggestions |
| IndexOptimizer.SearchIndexOptimizer.OptimizeIndex | scripts/search_index_optimizer.py:530-563 | the index becomes the pruned index and `document_count` its size; success is both saves |
| IndexOptimizer.SearchIndexOptimizer.ExportIndexStats | scripts/search_index_optimizer.py:581-606 | the two nested loops compute exactly the specified statistics |
| AccessControl.MergeGet | scripts/access_control_config.py:141-147 | merged keys are the union; a key only in the defaults keeps its value; where both are dicts the values merge recursively; otherwise the user value wins |
| AccessControl.MergeFromGet | scripts/access_control_config.py:142-146 | after the loop has run over the user's keys from i on, each key holds the merge of its old and user values |
| AccessControl.MergeFromKeys | scripts/access_control_config.py:142-146 | the loop over the user's keys keeps the keys already present first and in order, keeps keys distinct, and adds none when every remaining key is present |
| AccessControl.MergeKeys | scripts/access_control_config.py:141-147 | the defaults' keys stay first and in order, keys stay distinct, no new key when the user's keys are all defaults, and an empty user dict changes nothing |
| AccessControl.MergeWellFormed | scripts/access_control_config.py:141-147 | merging well-formed values (distinct keys at every level) gives a well-formed value |
| AccessControl.SelfMerge | scripts/access_control_config.py:141-147 | a well-formed dict merged with itself is unchanged |
| AccessControl.MergeTwice | scripts/access_control_config.py:141-147 | merging the same update twice is merging it once |
| AccessControl.MergeKeeps | scripts/access_control_config.py:141-147 | a key the user dict lacks keeps the default's value |
| AccessControl.LoadConfig | scripts/access_control_config.py:119-129 | the loaded configuration is always a dict |
| AccessControl.LoadKeepsAuthorization | scripts/access_control_config.py:119-124 | a stored dict without an `authorization` key leaves the built-in roles in force |
| AccessControl.DefaultRoles | scripts/access_control_config.py:56-76 | the built-in configuration has a complete authorization section whose default role is `guest` |
| AccessControl.DefaultRoleTableFacts | scripts/access_control_config.py:57-74 | the built-in roles are admin, editor, viewer, guest, in that order, with their permission lists |
| AccessControl.DefaultAuthorizationOk | scripts/access_control_config.py:56-76 | the built-in authorization section gives the built-in table, default role `guest`, and is complete |
| AccessControl.AuthorizationSection | scripts/access_control_config.py:219-222 | an authorization dict of `roles` and `default_role` yields that table and that default role |
| AccessControl.ChecksAnswer | scripts/access_control_config.py:219-222 | for a role table with distinct names, the section is complete (the default role is in the table and every role has a list of permission strings) exactly when `has_permission` answers, without raising, for every role name |
| AccessControl.Strings | scripts/access_control_config.py:222 | a permission list is read exactly when every item is a string, item for item |
| AccessControl.PermissionsDefined | scripts/access_control_config.py:219-222 | with a complete authorization section every role's lookup succeeds |
| AccessControl.RoleFallback | scripts/access_control_config.py:219-222 | a role outside the table is checked as the default role, and the check fails when the default role is missing |
| AccessControl.WildcardOf | scripts/access_control_config.py:229-233 | `P:all` grants every `P:...` permission |
| AccessControl.GrantedIff | scripts/access_control_config.py:224-235 | a permission is granted exactly when listed or when some `P:all` is listed and it starts with `P:` |
| AccessControl.PlainGrant | scripts/access_control_config.py:224-235 | a permission without `:all` grants only itself |
| AccessControl.AdminGrantsUsers | scripts/access_control_config.py:59 | the admin list grants `admin:users` through `admin:all` |
| AccessControl.EditorGrants | scripts/access_control_config.py:63 | the editor list grants `write:docs` directly and `read:private` through `read:all` |
| AccessControl.PlainDefaults | scripts/access_control_config.py:67-71 | `read:public` grants only itself, as does `read:limited` |
| AccessControl.CheckPermission | scripts/access_control_config.py:224-235 | the literal test and the wildcard loop answer exactly the grant rule |
| AccessControl.FirstGrantIff | scripts/access_control_config.py:286-288 | when every check answers, the first-grant loop is true exactly when some check is true |
| AccessControl.ValidateIff | scripts/access_control_config.py:286-294 | with a complete section, access is granted exactly when some listed role has the permission, and an empty list is checked as the default role |
| AccessControl.UnionIff | scripts/access_control_config.py:269-273 | with a complete section the union succeeds, and holds a permission exactly when some listed role in the table lists it |
| AccessControl.UnionDefined | scripts/access_control_config.py:269-273 | with a complete section the loop's union is the union of the listed roles' permission sets |
| AccessControl.UnionOfIff | scripts/access_control_config.py:269-273 | a union over roles holds x exactly when some role's set does |
| AccessControl.UnionRaises | scripts/access_control_config.py:270-272 | once a lookup fails, the whole call fails |
| AccessControl.AddRolePermsDefined | scripts/access_control_config.py:271-272 | one step adds the role's permissions, or nothing for an unknown role |
| AccessControl.UnknownRoleIgnored | scripts/access_control_config.py:271 | dropping an unknown role from the list leaves the union unchanged |
| AccessControl.UnionOfDrop | scripts/access_control_config.py:269-273 | a role that contributes no permissions can be dropped from the list without changing the union |
| AccessControl.EffectiveGrantsAccess | scripts/access_control_config.py:269-294 | a permission in the roles' union passes `validate_access` for those roles |
| AccessControl.RoleEntryPermissions | scripts/access_control_config.py:203-206 | a new role's entry reads back its permission list |
| AccessControl.AddRoleTable | scripts/access_control_config.py:203-206 | adding a new role appends exactly it to the table; the other roles and the default role are unchanged |
| AccessControl.AddRoleEntry | scripts/access_control_config.py:203-206 | the new role's permissions are those of its entry |
| AccessControl.RoleEntryWellFormed | scripts/access_control_config.py:203-206 | a new role entry has distinct keys |
| AccessControl.AddRoleKeepsAuthOk | scripts/access_control_config.py:203-206 | a complete authorization section stays complete after adding a role with a valid list |
| AccessControl.AddRoleGrants | scripts/access_control_config.py:203-235 | after `add_role(name, perms)` the role grants exactly what `perms` grants, and completeness is kept |
| AccessControl.WithRoleWellFormed | scripts/access_control_config.py:203-206 | adding a well-formed role entry keeps the configuration well-formed |
| AccessControl.DefaultRoleChecks | scripts/access_control_config.py:57-74 | with the built-in roles, each role's check is the grant rule on its built-in list |
| AccessControl.EditorAdminExamples | scripts/access_control_config.py:306-308 | editor has `write:docs` and, through `read:all`, `read:private`; admin has `admin:users` through `admin:all` |
| AccessControl.ViewerExample | scripts/access_control_config.py:312-314 | a viewer is refused `write:docs` |
| AccessControl.GuestFallback | scripts/access_control_config.py:219-222 | with the built-in roles, an unknown role and an empty role list are both checked as guest |
| AccessControl.GuestExamples | scripts/access_control_config.py:286-292 | an unknown role gets `read:limited`; with no roles, `read:public` is refused |
| AccessControl.AccessControlConfig.constructor | scripts/access_control_config.py:23-34 | the configuration is the loaded one |
| AccessControl.AccessControlConfig.HasPermission | scripts/access_control_config.py:209-235 | answers exactly the specified check on a dict role table; fails (None) where the source raises, and whenever the role table is not a dict or the role's `permissions` is not a list of strings |
| AccessControl.AccessControlConfig.ValidateAccess | scripts/access_control_config.py:275-294 | answers exactly the specified access decision on a dict role table; fails (None) where a check it makes fails |
| AccessControl.AccessControlConfig.GetEffectivePermissions | scripts/access_control_config.py:260-273 | returns exactly the union of the listed roles' permissions; fails (None) where the source raises, and whenever a listed role meets a role table that is not a dict or a `permissions` value that is not a list of strings |
| AccessControl.AccessControlConfig.AddRole | scripts/access_control_config.py:188-207 | on a dict role table, a duplicate name gives false and no change; otherwise exactly the new role is added and the result is the save's; a table that is not a dict gives None |
| AccessControl.AccessControlConfig.UpdateConfig | scripts/access_control_config.py:172-186 | a dict update is merged in and the result is the save's; anything else raises, and gives false with no change |

## Left out

- File I/O: loading, saving, directory creation and `os.walk`. The walk is an input sequence; reading failures are a `None` content; save success is a boolean parameter. `_ensure_config_directory` and `save` of the access configuration are the `saved` parameter.
- Clocks (`datetime.now`, `time.time`) are a `now` parameter. `generate_api_key_config` is left out. It only assembles a record from the caller's arguments, two clock reads and the configured `token_expiry`. Its one computed field, the permission list, comes from `_get_effective_permissions`, which is modelled.
- `schedule_index_update`: an endless sleep loop stopped by an interrupt; nothing to state.
- `print` logging, both `main()` drivers, and scripts/build_docs.py (subprocess calls and `shutil`). The `main()` examples of access control are the example lemmas.
- The regex chain of `_extract_text_from_markdown` (lines 126-145 and 149) is a function parameter `stripMarkup`. Only the whitespace collapse and the final strip are modelled.
- `average_tokens_per_document` and `index_size_kb` are computed as reals without float rounding. The index file's size is a parameter.
- Unicode: `lower()` and case-insensitive matching are modelled for ASCII letters only. Tokens are ASCII letters, digits or CJK characters, so tokenizing is exact. Snippet matching is exact for ASCII text. `\s` and `strip()` use Python's whitespace set.
- IndexOptimizer.Stale: the branch for an entry with no `modified_time` key is not modelled, because entries always carry one.
- IndexOptimizer.SearchIndexOptimizer.constructor: a stored index is required to have distinct keys, as every JSON object read by `json.load` does.
- IndexOptimizer.SearchIndexOptimizer.constructor: the stored index and metadata are typed records, so they are assumed to have the shape `build_index` writes. A file of another shape is not represented. The model therefore leaves out two cases:
  - an entry without `inverted_index`, which `search` and `export_index_stats` tolerate through `.get('inverted_index', {})`;
  - metadata without `optimization_settings`, on which `_tokenize` raises `KeyError`, so every file is skipped during a build and `search` raises.
- IndexOptimizer.RebuiltCounts and IndexOptimizer.RebuiltGet: require the walked paths to be distinct, as relative paths of one walk are.
- IndexOptimizer.SearchIndexOptimizer.OptimizeIndex: does not promise that `token_count` equals the sum of the remaining entries' token counts. `optimize_index` updates `document_count` only, so after pruning `token_count` can disagree with the remaining entries. Entries are updated in place in the source, so the old dict shares them; the model builds new values and does not capture that sharing.
- The unused settings `stemming` and `synonyms_enabled` are inert fields.
- Access configuration values are JSON values. Numbers are integers, since no rule of the modelled core reads a float.
- Aliasing: `_merge_configs` copies only the top level of the defaults, and `add_role` stores the caller's list. The model works on values and does not capture shared mutable dicts or lists.
- A lookup that raises in Python returns `None`. This covers a missing `authorization`, `roles` or `permissions` key, a missing default role, and a role table that is a number, a boolean or null, on which `in` raises. The model also returns `None` whenever the role table is not a dict, and for any `permissions` value that is not a list of strings. This includes cases in which Python answers instead of raising; the next four lines name them. On a list table `in` tests the items, and on a string table it tests for a substring. Indexing either table with a role name raises.
- AccessControl.AccessControlConfig.HasPermission: gives `None` whenever the role table is not a dict or the consulted `permissions` value is not a list of strings. Python answers in these cases:
  - a list role table, when the role is not an item of the list and `default_role` is an integer or a boolean that indexes a dict entry with a `permissions` value: with `roles: [{"permissions": ["read:all"]}]` and `default_role: 0`, `has_permission("x", "read:y")` returns True;
  - the literal test of line 225 finds the permission before any item is inspected;
  - a `prefix:all` wildcard placed before a non-string item grants first, so `["read:all", 5]` grants `read:x`;
  - a dict `permissions` value, where `in` and the loop run over its keys;
  - a string `permissions` value, where `in` tests for a substring and no single character ends with `:all`.
- AccessControl.AccessControlConfig.ValidateAccess: gives `None` whenever a `has_permission` call it makes before the first grant gives `None`, and, for an empty role list, when `default_role` is not a string. It therefore inherits every case of the line above: with the list table there, `validate_access([], "read:y")` returns True.
- AccessControl.AccessControlConfig.GetEffectivePermissions: gives `None` whenever a listed role is looked up in a role table that is not a dict, or a listed role's `permissions` value is not a list of strings. Python answers in these cases:
  - a list or string role table in which no listed role is an item or a substring: the call returns `[]`, so `roles: []` with the listed roles `["x"]` gives `[]`;
  - `set.update` accepts any hashable items, so `{"r": {"permissions": ["read:x", 1]}}` gives `["read:x", 1]` for `["r"]`;
  - a string `permissions` value adds its characters;
  - a dict `permissions` value adds its keys.
- AccessControl.AccessControlConfig.AddRole: gives `None` whenever the role table is not a dict. On a list table whose items include the name, or a string table containing it, the test of line 199 makes Python return False with no change; with `roles: ["x"]`, `add_role("x", ...)` returns False. Otherwise the assignment of line 203 raises.
- AccessControl.AccessControlConfig.Valid only says the configuration is a dict. Distinct keys at every level hold for JSON read by `json.load`, but the class does not track them. AccessControl.MergeTwice and AccessControl.SelfMerge therefore require well-formed values.

## Findings

| source | as written | input that shows it | evidently intended | confidence | as-written member | corrected member |
|---|---|---|---|---|---|---|
| scripts/search_index_optimizer.py:485-488 | each query token is substituted into the snippet already highlighted by the previous tokens, so inserted `<mark>` markup is scanned again | snippet `api`, query `api api`: the token list is `["api", "api"]` and the result is `<mark><mark>api</mark></mark>` | every occurrence of a query term is marked once | high (proved, not executed) | Ranking.GenerateSnippet, Ranking.Highlight, Ranking.RepeatedTermNests | Ranking.GenerateSnippetOnce, Ranking.RepeatedTermsHarmless, Ranking.HighlightOnceRepeated |

Search results keep the snippet as the source computes it (`Ranking.GenerateSnippet`). The corrected `Ranking.GenerateSnippetOnce` is modelled alongside it.
