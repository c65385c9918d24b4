# Hybrid news search: a Dafny model

This project models the core of a hybrid search engine over a CSV table of news articles. Each row has a `TITLE` and a `DESCRIPTION`, and optionally a `MOD_DATE` and a `SOURCE_NAME`. A query is answered in five steps:

1. **Analysis.** The query is classified as short (at most six alphanumeric characters once stripped, such as a ticker or an acronym) or long. The class decides the fusion weights (0.9 / 0.1 or 0.3 / 0.7), the label, and how deep each retriever looks.
2. **Retrieval.** Two retrievers return candidates:
   - an embedding index searched with FAISS (30 or 40 neighbours);
   - a TF-IDF index (the best 20 or 30 rows with a positive cosine similarity).
3. **Fusion.** The fused score of a row is the semantic weight times its semantic scores plus the keyword weight times its keyword scores. The rows are kept in a dictionary whose order is insertion order.
4. **Ranking.** The dictionary's items are sorted by fused score, highest first, with a stable sort. They are walked until `top_k` results are kept; a row whose stripped title was already seen is skipped.
5. **Output.** The console formatter prints the kept rows with a header, or prints a no-results notice with direct-match counts. The search service returns the same rows as records, with a slightly different summary rule.

Start-up loads and validates the table and cleans the texts: markup removed, title twice plus description, whitespace normalised. It then loads each index from its cache files or builds it. The service reports health and capabilities.

The model follows the code's branches, loops and data:
- Python's `str.strip()`, `str.split()`, `' '.join`, `str.replace`, slicing, stable `sorted(..., reverse=True)`, dict insertion order and `df.iloc` with negative positions are written out.
- Library results enter as parameters:
  - `markup`: BeautifulSoup's text extraction;
  - `lower`: `str.lower`;
  - `compile`: `re.compile`, the regular expression that pandas' `str.contains` builds from the lower-cased query, with `None` for a pattern that raises `re.error`;
  - `alnum`: Unicode alphanumerics;
  - `faiss`: FAISS's answer for a requested depth;
  - the similarity vector and its argsort;
  - `Environment`: the start-up files and library outcomes.
- Printing is modelled as returned values (`Display`).
- Exceptions become `Result` / `Option` values.

Modules:
- `wrappers.dfy`, `search_types.dfy`, `strings.dfy`: shared types and the Python string builtins.
- `query_analyzer.dfy`, `data_loader.dfy`, `text_processor.dfy`, `semantic_index.dfy`, `keyword_index.dfy`, `hybrid_searcher.dfy`, `result_formatter.dfy`, `search_service.dfy`: one per source file.
- `ranking.dfy`: the stable sort and the title-deduplicating walk shared by the formatter and the service.
- `presentation.dfy`: the strategy line, summaries and match counts they share.

## Model

| member | source | states |
|---|---|---|
| QueryAnalyzer.GetSearchWeights | query_analyzer.py:17-32 | weights are in (0,1], sum to 1; the label is "keyword-focused" iff the query is short, "semantic-focused" iff long; semantic outweighs keyword iff short |
| QueryAnalyzer.AnalyzeQuery | query_analyzer.py:35-47 | the reported query is the stripped query and `length` its length; `isShort` iff 1..6 characters all alphanumeric; weights and label are those of the query's class |
| QueryAnalyzer.SixCharactersAreShort | query_analyzer.py:11-14 | the length bound 6 is inclusive |
| QueryAnalyzer.SevenCharactersAreLong | query_analyzer.py:11-14 | seven characters are never short, whatever the characters |
| QueryAnalyzer.TickerIsShort | query_analyzer.py:19-25 | a four-letter ticker gets 0.9 / 0.1 under "keyword-focused" |
| QueryAnalyzer.BlankQueryIsLong | query_analyzer.py:13-14 | an empty or blank query is long (empty `isalnum()` is false) and is reported as "" with length 0 |
| QueryAnalyzer.InnerSpaceIsLong | query_analyzer.py:13-14 | whitespace inside the stripped query makes it long |
| QueryAnalyzer.PaddingIsIgnored | query_analyzer.py:35-47 | surrounding whitespace changes nothing in the analysis |
| Strings.StripPadded | query_analyzer.py:13 | `strip()` ignores any whitespace padding |
| Strings.StripShape | query_analyzer.py:13 | a stripped text is no longer and has no whitespace at either end |
| Strings.WordsOfJoin | text_processor.py:21 | splitting the space-joined words gives the words back |
| Strings.JoinShape | text_processor.py:21 | joined words: no whitespace at the ends, every whitespace a single ' ' between non-spaces |
| Strings.WordsAroundSpace | text_processor.py:21 | `split()` at a whitespace character splits the word list there |
| Strings.Replace | result_formatter.py:69 | same length; exactly the `from` characters become `to` |
| Strings.Prefix | result_formatter.py:69 | `s[:n]` is the prefix of length min(len, n) |
| SearchTypes.Items | result_formatter.py:20 | `items()` lists each key once with its value, in insertion order |
| SearchTypes.Reverse | keyword_index.py:102 | `[::-1]` reverses |
| DataLoader.ILoc | result_formatter.py:61 | a row exists iff -n <= idx < n; it is a row of the table, the idx-th for non-negative idx |
| DataLoader.MissingColumns | data_loader.py:30 | exactly the absent required columns, with their multiplicities, in required order |
| DataLoader.DataLoader.constructor | data_loader.py:11-13 | nothing is loaded yet |
| DataLoader.DataLoader.LoadData | data_loader.py:15-23 | a readable CSV is stored and returned; a read failure raises and stores nothing |
| DataLoader.DataLoader.ValidateColumns | data_loader.py:25-32 | fails before a load; afterwards passes iff every required column exists, else reports the missing and available columns |
| DataLoader.DataLoader.GetData | data_loader.py:34-38 | fails before a load, returns the loaded table after |
| TextProcessor.CleanedTextIsTrimmed | text_processor.py:12-16 | empty input gives ""; the cleaned text has no whitespace at either end |
| TextProcessor.NormalizeKeepsWords | text_processor.py:19-21 | normalising keeps the words, in order |
| TextProcessor.NormalizedShape | text_processor.py:19-21 | the normalised text is empty iff there are no words; whitespace only as single inner spaces |
| TextProcessor.NormalizeIdempotent | text_processor.py:19-21 | normalising twice equals normalising once |
| TextProcessor.TitleCountsTwice | text_processor.py:23-30 | the document's words are the title's words twice, then the description's |
| TextProcessor.EmptyDocument | text_processor.py:23-30 | empty title and description give the empty text |
| TextProcessor.ProcessRows | text_processor.py:32-42 | one processed text per row, the k-th from the k-th row |
| TextProcessor.ProcessNext | text_processor.py:37-39 | one loop step extends the processed prefix by one row |
| TextProcessor.ProcessDocuments | text_processor.py:32-42 | succeeds iff every row has both columns, with `ProcessRows`; otherwise names the first row lacking one and that column |
| SemanticIndex.Found | semantic_index.py:84-92 | no more candidates than hits; each is a non-filler hit tagged semantic |
| SemanticIndex.FoundSingle | semantic_index.py:86-91 | a -1 filler is dropped, any other hit kept |
| SemanticIndex.FoundAppend | semantic_index.py:84-92 | filtering preserves FAISS's order (distributes over concatenation) |
| SemanticIndex.FoundComplete | semantic_index.py:85-91 | every non-filler hit is kept |
| SemanticIndex.CollectFound | semantic_index.py:84-92 | the loop returns `Found(hits)` |
| SemanticIndex.SemanticIndex.constructor | semantic_index.py:12-18 | no embeddings and no index yet |
| SemanticIndex.SemanticIndex.LoadExistingIndex | semantic_index.py:32-43 | loaded iff both cache files load; embeddings assigned before the index can fail |
| SemanticIndex.SemanticIndex.CreateNewIndex | semantic_index.py:45-69 | created iff encoding, adding and saving succeed; state after each failure point |
| SemanticIndex.SemanticIndex.LoadOrCreateIndex | semantic_index.py:20-30 | a load wins; no model means no build and failure; else succeeds iff the build does, leaving the embeddings and index the build assigned |
| SemanticIndex.SemanticIndex.Search | semantic_index.py:71-96 | not ready or failed gives []; otherwise `Found` of FAISS's answer |
| KeywordIndex.TailSlice | keyword_index.py:102 | `a[-k:]` is a suffix: the last k for k > 0, all of `a` for k == 0 |
| KeywordIndex.Positives | keyword_index.py:104-112 | each candidate is a visited position with its own positive similarity, tagged keyword |
| KeywordIndex.TopPositiveBounded | keyword_index.py:102-112 | at most top_k candidates for positive top_k, each valid and positive |
| KeywordIndex.TopPositiveDescending | keyword_index.py:102-112 | candidates come highest similarity first |
| KeywordIndex.PositivesComplete | keyword_index.py:105-111 | every visited position with positive similarity is returned |
| KeywordIndex.TopPositiveComplete | keyword_index.py:102-112 | for top_k >= 1, every positive row among the argsort's last min(top_k, n) positions is returned |
| KeywordIndex.VisitedPositive | keyword_index.py:104-112 | a positive row at a visited position is returned |
| KeywordIndex.TopPositiveOptimal | keyword_index.py:102-112 | a row scoring above any returned candidate is returned too |
| KeywordIndex.ZeroTopKReturnsAllPositives | keyword_index.py:102 | with top_k 0, `[-0:]` keeps everything: every positive row is returned |
| KeywordIndex.CollectPositives | keyword_index.py:104-112 | the loop returns `Positives` of the visited positions |
| KeywordIndex.KeywordIndex.constructor | keyword_index.py:11-16 | no vectorizer and no matrix yet |
| KeywordIndex.KeywordIndex.LoadExistingIndex | keyword_index.py:26-55 | loaded iff both files load and the vectorizer is rebuilt; matrix assigned first, vectorizer after the vocabulary |
| KeywordIndex.KeywordIndex.CreateNewIndex | keyword_index.py:57-85 | the unfitted vectorizer is assigned first; created iff fitting and saving succeed; ready with one matrix row per text |
| KeywordIndex.KeywordIndex.LoadOrCreateIndex | keyword_index.py:18-24 | a load wins; otherwise succeeds iff the build does, with the vectorizer and matrix the failed load and the build left; success implies ready |
| KeywordIndex.KeywordIndex.Search | keyword_index.py:87-117 | not ready, empty vocabulary or failure gives []; otherwise `TopPositive` of the similarities |
| Ranking.Insert | result_formatter.py:20 | inserting adds exactly one element (multiset) |
| Ranking.SortByScore | result_formatter.py:20 | the sort is a permutation (multiset) |
| Ranking.InsertSorted | result_formatter.py:20 | insertion keeps a non-increasing sequence non-increasing |
| Ranking.SortSorted | result_formatter.py:20 | the sort yields non-increasing scores |
| Ranking.InsertStable | result_formatter.py:20 | insertion goes after all equal scores |
| Ranking.SortStable | result_formatter.py:20 | equal scores keep their dictionary order (stability) |
| Ranking.TitledRow | result_formatter.py:33 | a row is produced only if `iloc` finds it and it has TITLE |
| Ranking.WalkStopped | result_formatter.py:29-31 | after a raise or once top_k are kept, later entries change nothing |
| Ranking.TitleSet | result_formatter.py:34-36 | every kept title is in `seen_titles` |
| Ranking.TitleSetMember | result_formatter.py:34-36 | every title in `seen_titles` is a kept one |
| Ranking.WalkedStep | result_formatter.py:29-39 | one loop pass keeps the walk invariant |
| Ranking.WalkedSkip | result_formatter.py:30-35 | passing over a seen title keeps the invariant |
| Ranking.WalkedKeep | result_formatter.py:33-39 | keeping an unseen title keeps the invariant |
| Ranking.WalkToSound | result_formatter.py:26-39 | every successful prefix of the walk satisfies the invariant |
| Ranking.WalkOnSound | result_formatter.py:29-39 | the same, through one more position |
| Ranking.SelectSound | result_formatter.py:26-39 | kept: at most top_k, in order, from their rows, distinct titles, first occurrences; every entry before the last kept one has a kept title; if fewer than top_k, every title is kept |
| Ranking.KeepNoneSkipped | result_formatter.py:34-39 | keeping an entry when every earlier title was seen leaves no unseen title before the last kept entry |
| Ranking.WalkToFails | result_formatter.py:29-33 | a prefix of the walk raises iff it reaches an unreadable row while fewer than top_k are kept, and names that row |
| Ranking.SelectFails | result_formatter.py:29-33 | the walk fails iff it reaches an unreadable row before the top_k cut; the error is that row's idx |
| Ranking.ReadableNeverFails | result_formatter.py:29-33 | with every row readable the walk succeeds |
| Ranking.CutStopsLookups | result_formatter.py:29-31 | after the `break` no row is looked up: a readable first entry with top_k 1 succeeds whatever follows |
| Ranking.PicksDescending | result_formatter.py:20-29 | kept entries of a sorted list come highest score first |
| Presentation.AnalyzedQueryIsWeighted | result_formatter.py:52-55 | every analysed query shows the weighted line with its class's numbers; "Keyword matching only" never appears |
| Presentation.ShortSummary | result_formatter.py:69 | at most 300 characters, no newline |
| Presentation.ShortSummaryCut | result_formatter.py:69 | a stripped description of at most 300 characters is kept whole; a longer one is cut to exactly 300 |
| Presentation.ConsoleSummary | result_formatter.py:74 | the console always ends the summary with "..." |
| Presentation.ServiceSummary | search_service.py:153-155 | the service summary is at most 303 characters |
| Presentation.ServiceEllipsisIff | search_service.py:153-155 | "..." is added iff the stripped description is at least 300 characters and the raw one more than 300 |
| Presentation.TruncatedSummaryHasEllipsis | search_service.py:153-155 | a cut description is marked with "..." |
| Presentation.ShortDescriptionShownWhole | search_service.py:153-155 | a description of at most 300 characters is shown whole without "..." |
| Presentation.PaddedDescriptionGetsEllipsis | search_service.py:154-155 | a padded 300-character text is shown whole yet gets "..." |
| Presentation.CountMatches | result_formatter.py:83-84 | the match count is at most the number of rows |
| Presentation.CountIsMatchingRows | result_formatter.py:83-84 | the count equals the size of the set of rows whose lower-cased cell the compiled pattern's search accepts |
| Presentation.UniversalPatternMatchesAll | result_formatter.py:83-84 | a pattern that matches every text (such as "" or "$") counts every row |
| ResultFormatter.ShownRows | result_formatter.py:29-39 | the k-th printed result is the k-th kept entry, numbered k+1 |
| ResultFormatter.ShownForCounted | result_formatter.py:26-39 | at most top_k results, numbered 1.., each with its row's stripped title, titles distinct |
| ResultFormatter.ShownForOrdered | result_formatter.py:20-39 | results are entries, in non-increasing score order |
| ResultFormatter.ShownForComplete | result_formatter.py:29-39 | fewer than top_k results means every entry's title is shown |
| ResultFormatter.ShownForLeading | result_formatter.py:29-39 | over sorted entries, every entry scoring above the last shown result has its title shown: only repeated titles are passed over |
| ResultFormatter.SortedItemsOfTable | result_formatter.py:20 | the sorted items are exactly the dictionary's (key, score) pairs |
| ResultFormatter.NoResultCounts | result_formatter.py:77-88 | raises iff the lower-cased query does not compile, naming that pattern; otherwise both counts are at most the number of rows |
| ResultFormatter.RenderFrame | result_formatter.py:14-42 | header iff scores exist; no-results notice iff nothing shown, and then the pattern compiled and the notice carries its TITLE and DESCRIPTION counts |
| ResultFormatter.RenderRanked | result_formatter.py:14-42 | shown results: at most top_k, numbered, scored rows with their fused scores and titles, descending, titles distinct |
| ResultFormatter.RenderComplete | result_formatter.py:26-42 | fewer than top_k shown means every scored row's title is shown |
| ResultFormatter.RenderLeading | result_formatter.py:20-42 | every scored row whose fused score is above the last shown result's has its title shown |
| ResultFormatter.RenderFails | result_formatter.py:14-42 | the row lookup raises iff the walk reaches an unreadable scored row before the top_k cut, naming it; any other raise is the `re.error` of the lower-cased query, which happens for empty scores or an empty walk and only then; a walk that keeps entries never raises it |
| ResultFormatter.ResultFormatter.constructor | result_formatter.py:11-12 | the formatter keeps the table |
| ResultFormatter.ResultFormatter.FormatAndDisplayResults | result_formatter.py:14-42 | prints exactly `Render` of its inputs, or raises as `Render` does |
| ResultFormatter.ResultFormatter.ShowResults | result_formatter.py:26-40 | the loop prints exactly `ShownFor` of the sorted entries |
| ResultFormatter.ResultFormatter.ShowEntry | result_formatter.py:30-39 | one pass advances the walk by one entry, or raises with that entry's idx |
| HybridSearcher.SemanticResults | hybrid_searcher.py:40-47 | not ready gives []; each candidate is a non-filler hit of FAISS's answer at depth 30 (short) or 40 (long) |
| HybridSearcher.SemanticResultsBounded | hybrid_searcher.py:46-47 | at most 30 / 40 semantic candidates |
| HybridSearcher.KeywordResultsShape | hybrid_searcher.py:49-56 | not ready gives []; at most 30 / 20 candidates, descending, each with its own positive similarity |
| HybridSearcher.Fused | hybrid_searcher.py:58-75 | the fused dictionary is well formed (each key once) |
| HybridSearcher.PutValid | hybrid_searcher.py:68 | storing a score keeps each key once |
| HybridSearcher.AccumulateValid | hybrid_searcher.py:66-73 | an accumulation loop keeps the dictionary well formed |
| HybridSearcher.SumForAbsent | hybrid_searcher.py:66-73 | an unmentioned row sums to 0 |
| HybridSearcher.AccumulateKeys | hybrid_searcher.py:66-68 | after a loop, keys are the old keys plus the mentioned rows |
| HybridSearcher.AccumulateScore | hybrid_searcher.py:66-68 | each row's entry grows by the weight times its summed scores |
| HybridSearcher.AccumulateKeepsOrder | hybrid_searcher.py:66-68 | existing keys keep their positions; new keys go after |
| HybridSearcher.FusedKeys | hybrid_searcher.py:58-75 | fused keys are exactly the rows either retriever returned; none for two empty lists |
| HybridSearcher.FusedScore | hybrid_searcher.py:58-75 | fused score = semantic weight × semantic sum + keyword weight × keyword sum |
| HybridSearcher.FusedSingleSource | hybrid_searcher.py:58-75 | a one-sided row carries only that side's weighted score |
| HybridSearcher.FusedSemanticFirst | hybrid_searcher.py:65-73 | semantic rows come first in dictionary order |
| HybridSearcher.CapabilitiesFor | hybrid_searcher.py:77-92 | availability flags; hybrid iff both ready; mode hybrid / keyword_only / none by that precedence |
| HybridSearcher.HybridSearcher.constructor | hybrid_searcher.py:10-14 | the searcher keeps its two indices and its formatter |
| HybridSearcher.HybridSearcher.Search | hybrid_searcher.py:16-38 | prints `Render` of the fused results of one analysis, or raises what the formatter raises |
| HybridSearcher.HybridSearcher.GetSemanticResults | hybrid_searcher.py:40-47 | returns `SemanticResults` for the index's readiness |
| HybridSearcher.HybridSearcher.GetKeywordResults | hybrid_searcher.py:49-56 | returns `KeywordResults` for the index's state |
| HybridSearcher.HybridSearcher.CombineResults | hybrid_searcher.py:58-75 | the two loops build exactly `Fused` |
| HybridSearcher.HybridSearcher.GetSearchCapabilities | hybrid_searcher.py:77-92 | `CapabilitiesFor` the two readiness flags |
| SearchService.ServiceRows | search_service.py:157-165 | the k-th record is built from the k-th kept entry, numbered k+1 |
| SearchService.AnswerPresents | search_service.py:139-164 | each record presents its entry's row: title, N/A defaults, summary, score |
| SearchService.AnswerCounted | search_service.py:135-166 | at most top_k records, numbered 1.., summaries at most 303 characters, titles distinct |
| SearchService.AnswerFirstOccurrence | search_service.py:140-145 | every entry ranked above a record's is readable with another title |
| SearchService.AnswerOrdered | search_service.py:129-166 | sorted entries give non-increasing record scores |
| SearchService.AnswerMatchesConsole | search_service.py:135-166 | the service and the console agree on outcome, numbers, titles, dates, sources and scores; summaries differ at most by "..." |
| SearchService.AnswerComplete | search_service.py:135-166 | fewer than top_k records means every entry's title has one |
| SearchService.AnswerLeading | search_service.py:135-166 | over sorted entries, every entry scoring above the last record has its title among the records |
| SearchService.RespondOutcome | search_service.py:100-171 | fails iff the walk reaches an unreadable scored row before the top_k cut, naming it; success carries the strategy line; no scores gives no results |
| SearchService.RespondRanked | search_service.py:129-171 | at most top_k results, numbered, descending, titles distinct, summaries at most 303 characters |
| SearchService.RespondPresents | search_service.py:139-164 | each result presents some scored row with that row's fused score |
| SearchService.RespondLeading | search_service.py:129-166 | every scored row whose fused score is above the last result's has its title among the results |
| SearchService.LeadingKey | search_service.py:129-166 | the result that carries such a row's title |
| SearchService.ValidatedRowsHaveColumns | search_service.py:48 | after validation every row has TITLE and DESCRIPTION |
| SearchService.SearchService.constructor | search_service.py:26-33 | fields start empty, then start-up runs, leaving exactly the state `_initialize` leaves: the load or missing-columns error, or an initialised service with no error, a fresh searcher and the readiness and vocabulary iffs |
| SearchService.SearchService.Initialize | search_service.py:35-80 | read failure or missing columns record the error and leave the service uninitialised; otherwise a fresh searcher over the validated table; semantic ready iff the model loaded and either both caches loaded or encoding succeeded; keyword ready iff the matrix loaded with a vocabulary file present, or fitting succeeded; the vectorizer has a vocabulary iff the loaded one (after a full load) or the fitted one (otherwise) is non-empty |
| SearchService.SearchService.BuildSearcher | search_service.py:50-73 | assembles fresh indices and formatter over the table; the same readiness and vocabulary iffs |
| SearchService.SearchService.GetHealthStatus | search_service.py:82-98 | healthy iff initialised with a searcher: running, document count, capabilities; otherwise the unhealthy record with the stored error |
| SearchService.SearchService.Search | search_service.py:100-171 | refuses before start-up; otherwise returns `Respond` of the fused results of one analysis |
| SearchService.SearchService.CollectResults | search_service.py:131-166 | the loop with its `break` builds exactly `Answer` |
| SearchService.SearchService.CollectEntry | search_service.py:136-166 | one pass advances the walk by one entry, or raises with that entry's idx |

## Left out

- Printing and logging: console output is returned as `Display` values. The emoji lines, progress messages and `logger` calls are not modelled. A `Display` ending in a raise is an `Err`, so output printed before the raise is not modelled.
- Number formatting: `{:.0%}` and `{:.4f}` are not modelled. The strategy line and scores are kept as reals. `float(combined_score)` is the identity on reals.
- Floating point: scores and weights are exact reals. FAISS distances and TF-IDF similarities are float32/float64 in the code; rounding is not modelled.
- Library algorithms: BeautifulSoup text extraction, `str.lower`, Unicode `isalnum`, sentence embedding, the FAISS search, TF-IDF fitting and transforming, and the sparse product are parameters. `Environment` supplies the results these give at start-up.
- KeywordIndex.KeywordIndex.LoadExistingIndex: whether rebuilding the vectorizer's private state succeeds is a parameter (`reconstructs`). Its library behaviour is not modelled.
- KeywordIndex.IsArgsort: numpy's tie order is left open. Every argsort consistent with the similarities is admitted; the unstable sort itself is not modelled.
- SemanticIndex.SemanticIndex.Search: the `top_k` it passes to FAISS lives in the `faiss` parameter. `HybridSearcher.SemanticResults` states which depth is asked for.
- HybridSearcher.SemanticResultsBounded: FAISS returning exactly `d` columns for depth `d` is assumed through its requires. It is a property of the library.
- The `file_manager` and `model_manager` objects are not part of this model. Their files and load results are `CacheFile` values and `modelLoaded`, and the saves are booleans with no modelled effect. The API layer (`api_server.py`, `api_routes.py`, `run_api.py`) and the CLI (`main.py`) are not part of this model. The default `top_k` values of their signatures are not modelled.
- SearchService.SearchService.Initialize:
  - it requires an uninitialised service, which is how `__init__` calls it; a repeated call is not modelled;
  - `initialization_error` is `str(e)` in the code and is kept here as the structured error;
  - a `KeyError` from `process_documents` cannot happen after column validation, so that path is not modelled;
  - exceptions the model manager or the index constructors might raise are not modelled, since those sources are not part of this model.
- SearchService.SearchService.GetHealthStatus: the message strings are modelled by `HealthMessage`, and the capabilities dictionary by the `Capabilities` datatype.
- The `query_analyzer` field of the hybrid searcher: it holds no state. Its static functions are called directly.
- The dataframe is read with `dtype=str` and `fillna("")`, so every cell is a string. Non-string cells and pandas `NaN` handling are not modelled.
- Regular expressions: `str.contains(query_lower, na=False)` reads the lower-cased query as a regular expression. Which patterns compile and what a compiled pattern matches are the `compile` parameter; Python's regular-expression engine is not modelled. `na=False` has no effect here, since every cell is a string.
