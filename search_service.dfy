/** The search service behind the HTTP API: builds the whole pipeline once,
    reports its health, and answers a query with the same ranking walk as
    the console formatter, returned as records instead of printed. */
module SearchService {
  import opened Wrappers
  import opened Strings
  import opened SearchTypes
  import opened QueryAnalyzer
  import opened DataLoader
  import opened TextProcessor
  import opened SemanticIndex
  import opened KeywordIndex
  import opened Ranking
  import opened Presentation
  import opened ResultFormatter
  import opened HybridSearcher

  /** The `SearchResult` record of the API. */
  datatype SearchResult = SearchResult(resultNumber: nat, title: string, date: string, source: string,
                                       summary: string, score: real)

  /** The dictionary `search` returns: the results and the strategy line. */
  datatype SearchResponse = SearchResponse(results: seq<SearchResult>, strategy: StrategyLine)

  /** Why building the pipeline failed: the loader's error. */
  datatype InitError = LoadFailed(error: LoadError)

  /** Why `search` raised: the service never initialised (with the reason
      recorded then), or the row at `idx` cannot be read. */
  datatype SearchError = NotInitialized(reason: Option<InitError>) | RowUnreadable(idx: int)

  /** One kept entry as a record: missing dates and sources become "N/A",
      and the fused score is kept as it is. */
  function ServiceResult(p: Pick, number: nat, markup: string -> string): SearchResult {
    SearchResult(number, p.title, Field(p.row, "MOD_DATE", "N/A"), Field(p.row, "SOURCE_NAME", "N/A"),
                 ServiceSummary(Description(p.row, markup)), p.entry.score)
  }

  /** The kept entries as records, numbered from 1. */
  function ServiceRows(ps: seq<Pick>, markup: string -> string): (r: seq<SearchResult>)
    ensures |r| == |ps|
    ensures forall k :: 0 <= k < |ps| ==> r[k] == ServiceResult(ps[k], k + 1, markup)
  {
    if ps == [] then []
    else ServiceRows(ps[..|ps| - 1], markup) + [ServiceResult(ps[|ps| - 1], |ps|, markup)]
  }

  /** The records the loop of `search` builds over the sorted entries, or the
      `idx` of the row whose lookup raises. */
  function Answer(entries: seq<Scored>, t: Table, topK: int, markup: string -> string): Result<seq<SearchResult>, int> {
    match Select(entries, t, topK)
    case Err(idx) => Err(idx)
    case Ok(ps) => Ok(ServiceRows(ps, markup))
  }

  /** What `search` returns for an analysed query and its fused scores. */
  function Respond(t: Table, a: QueryAnalysis, combined: ScoreTable, topK: int, markup: string -> string)
    : Result<SearchResponse, SearchError>
    requires combined.Valid()
  {
    match Answer(SortByScore(Items(combined)), t, topK, markup)
    case Err(idx) => Err(RowUnreadable(idx))
    case Ok(results) => Ok(SearchResponse(results, StrategyLineOf(a)))
  }

  /** A record presents the row at `key` with score `score`: the row can be
      read, the title is its stripped TITLE, a missing date or source is
      "N/A", and the summary is the service summary of its description. */
  ghost predicate Presents(t: Table, key: int, score: real, r: SearchResult, markup: string -> string) {
    && TitledRow(t, key).Some?
    && var row := TitledRow(t, key).value;
    && r.title == Strip(row["TITLE"])
    && r.date == Field(row, "MOD_DATE", "N/A") && r.source == Field(row, "SOURCE_NAME", "N/A")
    && r.summary == ServiceSummary(Description(row, markup))
    && r.score == score
  }

  /** Each record presents the entry it was built from. */
  lemma AnswerPresents(entries: seq<Scored>, t: Table, topK: int, markup: string -> string)
    ensures var s := Select(entries, t, topK);
      s.Ok? ==> forall k :: 0 <= k < |s.value| ==>
        && s.value[k].pos < |entries| && s.value[k].entry == entries[s.value[k].pos]
        && Presents(t, entries[s.value[k].pos].idx, entries[s.value[k].pos].score, Answer(entries, t, topK, markup).value[k], markup)
  {
    SelectSound(entries, t, topK);
  }

  /** At most `top_k` records (none for `top_k <= 0`), numbered 1, 2, ...,
      no two with the same title, each title first met at the entry the
      record was built from. */
  lemma AnswerCounted(entries: seq<Scored>, t: Table, topK: int, markup: string -> string)
    ensures var r := Answer(entries, t, topK, markup);
      r.Ok? ==>
        && (|r.value| <= topK || r.value == [])
        && (forall k :: 0 <= k < |r.value| ==> r.value[k].resultNumber == k + 1 && |r.value[k].summary| <= 303)
        && (forall k, l :: 0 <= k < l < |r.value| ==> r.value[k].title != r.value[l].title)
  {
    SelectSound(entries, t, topK);
  }

  /** The record for a kept entry carries the first occurrence of its title:
      every entry ranked above it was readable and had another title. */
  lemma AnswerFirstOccurrence(entries: seq<Scored>, t: Table, topK: int, markup: string -> string)
    ensures var s := Select(entries, t, topK);
      s.Ok? ==> forall k, q :: 0 <= k < |s.value| && 0 <= q < s.value[k].pos && q < |entries| ==>
        TitleAt(t, entries[q].idx).Some? && TitleAt(t, entries[q].idx).value != Answer(entries, t, topK, markup).value[k].title
  {
    SelectSound(entries, t, topK);
  }

  /** Sorted entries give records in non-increasing score order. */
  lemma AnswerOrdered(entries: seq<Scored>, t: Table, topK: int, markup: string -> string)
    requires NonIncreasing(entries)
    ensures var r := Answer(entries, t, topK, markup);
      r.Ok? ==> forall k, l :: 0 <= k < l < |r.value| ==> r.value[k].score >= r.value[l].score
  {
    SelectSound(entries, t, topK);
    if Select(entries, t, topK).Ok? {
      PicksDescending(entries, Select(entries, t, topK).value);
    }
  }

  /** The service and the console formatter keep the same entries: same
      outcome, and the same numbers, titles, dates, sources and scores; the
      summaries differ at most by the console's "...". */
  lemma AnswerMatchesConsole(entries: seq<Scored>, t: Table, topK: int, markup: string -> string)
    ensures var r := Answer(entries, t, topK, markup);
      var c := ShownFor(entries, t, topK, markup);
      && (r.Err? <==> c.Err?)
      && (r.Err? ==> r.error == c.error)
      && (r.Ok? ==>
            && |r.value| == |c.value|
            && forall k :: 0 <= k < |r.value| ==>
                 && r.value[k].resultNumber == c.value[k].number && r.value[k].title == c.value[k].title
                 && r.value[k].date == c.value[k].date && r.value[k].source == c.value[k].source
                 && r.value[k].score == c.value[k].score
                 && (c.value[k].summary == r.value[k].summary || c.value[k].summary == r.value[k].summary + "..."))
  {
  }

  /** Fewer than `top_k` records means every entry's title has one. */
  lemma AnswerComplete(entries: seq<Scored>, t: Table, topK: int, markup: string -> string)
    ensures var r := Answer(entries, t, topK, markup);
      r.Ok? && |r.value| < topK ==> forall q :: 0 <= q < |entries| ==>
        TitleAt(t, entries[q].idx).Some? &&
        exists k :: 0 <= k < |r.value| && r.value[k].title == TitleAt(t, entries[q].idx).value
  {
    ShownForComplete(entries, t, topK, markup);
    AnswerMatchesConsole(entries, t, topK, markup);
  }

  /** Over entries in descending score order, every entry scoring above the
      last record has its title among the records. */
  lemma AnswerLeading(entries: seq<Scored>, t: Table, topK: int, markup: string -> string)
    requires NonIncreasing(entries)
    ensures var r := Answer(entries, t, topK, markup);
      r.Ok? && r.value != [] ==> forall q :: 0 <= q < |entries| && entries[q].score > r.value[|r.value| - 1].score ==>
        TitleAt(t, entries[q].idx).Some? &&
        exists k :: 0 <= k < |r.value| && r.value[k].title == TitleAt(t, entries[q].idx).value
  {
    ShownForLeading(entries, t, topK, markup);
    AnswerMatchesConsole(entries, t, topK, markup);
  }

  /** A failure names a scored row that cannot be read, and happens exactly
      when the walk over the sorted items reaches an unreadable row before
      the `top_k` cut; every other outcome carries the strategy line of the
      analysis. */
  lemma RespondOutcome(t: Table, a: QueryAnalysis, combined: ScoreTable, topK: int, markup: string -> string)
    requires combined.Valid()
    ensures var r := Respond(t, a, combined, topK, markup);
      var entries := SortByScore(Items(combined));
      && (r.Err? <==> exists q :: 0 <= q < |entries| && RaisesAt(entries, t, topK, q))
      && (r.Err? ==>
            && r.error.RowUnreadable? && r.error.idx in combined.scores && TitledRow(t, r.error.idx).None?
            && exists q :: 0 <= q < |entries| && RaisesAt(entries, t, topK, q) && entries[q].idx == r.error.idx)
      && (r.Ok? ==> r.value.strategy == StrategyLineOf(a))
      && (combined.keys == [] ==> r == Ok(SearchResponse([], StrategyLineOf(a))))
  {
    var entries := SortByScore(Items(combined));
    SelectFails(entries, t, topK);
    var s := Select(entries, t, topK);
    if s.Err? {
      var q :| 0 <= q < |entries| && RaisesAt(entries, t, topK, q) && entries[q].idx == s.error;
      SortedItemsOfTable(combined, entries[q]);
    }
  }

  /** The results: at most `top_k`, numbered 1, 2, ... in descending score
      order, no two with the same title. */
  lemma RespondRanked(t: Table, a: QueryAnalysis, combined: ScoreTable, topK: int, markup: string -> string)
    requires combined.Valid()
    ensures var r := Respond(t, a, combined, topK, markup);
      r.Ok? ==>
        var rs := r.value.results;
        && (|rs| <= topK || rs == [])
        && (forall k :: 0 <= k < |rs| ==> rs[k].resultNumber == k + 1 && |rs[k].summary| <= 303)
        && (forall k, l :: 0 <= k < l < |rs| ==> rs[k].score >= rs[l].score && rs[k].title != rs[l].title)
  {
    var entries := SortByScore(Items(combined));
    SortSorted(Items(combined));
    AnswerCounted(entries, t, topK, markup);
    AnswerOrdered(entries, t, topK, markup);
  }

  /** Each result presents a scored row, with that row's own fused score. */
  lemma RespondPresents(t: Table, a: QueryAnalysis, combined: ScoreTable, topK: int, markup: string -> string)
    requires combined.Valid()
    ensures var r := Respond(t, a, combined, topK, markup);
      r.Ok? ==> forall k :: 0 <= k < |r.value.results| ==>
        exists key :: key in combined.scores && Presents(t, key, combined.scores[key], r.value.results[k], markup)
  {
    var r := Respond(t, a, combined, topK, markup);
    forall k | r.Ok? && 0 <= k < |r.value.results|
      ensures exists key :: key in combined.scores && Presents(t, key, combined.scores[key], r.value.results[k], markup)
    {
      var key := PresentedKey(t, a, combined, topK, markup, k);
    }
  }

  /** Every scored row whose fused score is above the last result's has its
      title among the results. */
  lemma RespondLeading(t: Table, a: QueryAnalysis, combined: ScoreTable, topK: int, markup: string -> string)
    requires combined.Valid()
    ensures var r := Respond(t, a, combined, topK, markup);
      r.Ok? && r.value.results != [] ==> var rs := r.value.results; forall key ::
        key in combined.scores && combined.scores[key] > rs[|rs| - 1].score ==>
          TitleAt(t, key).Some? && exists k :: 0 <= k < |rs| && rs[k].title == TitleAt(t, key).value
  {
    var r := Respond(t, a, combined, topK, markup);
    forall key | r.Ok? && r.value.results != [] && key in combined.scores
        && combined.scores[key] > r.value.results[|r.value.results| - 1].score
      ensures TitleAt(t, key).Some? &&
        exists k :: 0 <= k < |r.value.results| && r.value.results[k].title == TitleAt(t, key).value
    {
      var k := LeadingKey(t, a, combined, topK, markup, key);
    }
  }

  /** The result carrying the title of a scored row that outscores the last
      result. */
  lemma LeadingKey(t: Table, a: QueryAnalysis, combined: ScoreTable, topK: int, markup: string -> string, key: int)
    returns (k: int)
    requires combined.Valid()
    requires var r := Respond(t, a, combined, topK, markup);
      r.Ok? && r.value.results != [] && key in combined.scores
      && combined.scores[key] > r.value.results[|r.value.results| - 1].score
    ensures var rs := Respond(t, a, combined, topK, markup).value.results;
      TitleAt(t, key).Some? && 0 <= k < |rs| && rs[k].title == TitleAt(t, key).value
  {
    var entries := SortByScore(Items(combined));
    var r := Answer(entries, t, topK, markup).value;
    assert Respond(t, a, combined, topK, markup).value.results == r;
    SortSorted(Items(combined));
    AnswerLeading(entries, t, topK, markup);
    SortedItemsOfTable(combined, Scored(key, combined.scores[key]));
    var q :| 0 <= q < |entries| && entries[q] == Scored(key, combined.scores[key]);
    k :| 0 <= k < |r| && r[k].title == TitleAt(t, entries[q].idx).value;
  }

  /** The scored row the `k`-th record presents. */
  lemma PresentedKey(t: Table, a: QueryAnalysis, combined: ScoreTable, topK: int, markup: string -> string, k: int)
    returns (key: int)
    requires combined.Valid()
    requires var r := Respond(t, a, combined, topK, markup); r.Ok? && 0 <= k < |r.value.results|
    ensures key in combined.scores
    ensures Presents(t, key, combined.scores[key], Respond(t, a, combined, topK, markup).value.results[k], markup)
  {
    var entries := SortByScore(Items(combined));
    assert Respond(t, a, combined, topK, markup).value.results == Answer(entries, t, topK, markup).value;
    AnswerPresents(entries, t, topK, markup);
    var e := entries[Select(entries, t, topK).value[k].pos];
    SortedItemsOfTable(combined, e);
    key := e.idx;
  }


  /** Column validation guarantees every row has the text columns. */
  lemma ValidatedRowsHaveColumns(t: Table)
    requires t.WellFormed() && "TITLE" in t.columns && "DESCRIPTION" in t.columns
    ensures HasTextColumns(t)
  {
    forall k | 0 <= k < |t.rows|
      ensures "TITLE" in t.rows[k] && "DESCRIPTION" in t.rows[k]
    {
      assert t.rows[k] in t.rows;
    }
  }

  /** What the pipeline's libraries and files give at start-up: the CSV file
      (`None` when reading it fails), whether the embedding model loads, and
      the cache files and build outcomes of both indices. */
  datatype Environment = Environment(
    csv: Option<Table>,
    modelLoaded: bool,
    embeddingsFile: CacheFile<Embeddings>, indexFile: CacheFile<FaissIndex>,
    encoded: Option<Embeddings>, added: bool, semanticSaved: bool,
    matrixFile: CacheFile<SparseMatrix>, vocabFile: CacheFile<map<string, nat>>, reconstructs: bool,
    fit: Option<Fit>, keywordSaved: bool)
  {
    /** The library outcomes fit the data: a read table is well formed, and an
        encoding or a fit has one row per document. */
    ghost predicate Consistent() {
      && (csv.Some? ==> csv.value.WellFormed())
      && (csv.Some? && encoded.Some? ==> encoded.value.count == |csv.value.rows|)
      && (csv.Some? && fit.Some? ==> fit.value.matrix.rows == |csv.value.rows|)
    }

    /** The table loads and has the two text columns, so start-up goes on
        to build the searcher. */
    predicate Validates() {
      csv.Some? && "TITLE" in csv.value.columns && "DESCRIPTION" in csv.value.columns
    }

    /** The semantic index ends up ready: the model loaded, and either both
        cache files loaded or encoding succeeded (the index is assigned
        before adding and saving, so a later failure leaves it in place). */
    predicate SemanticReady() {
      modelLoaded && ((embeddingsFile.Present? && indexFile.Present?) || encoded.Some?)
    }

    /** The keyword index ends up ready: the matrix loaded with a vocabulary
        file present (the matrix is assigned before the vocabulary load), or
        fitting succeeded. */
    predicate KeywordReady() {
      (matrixFile.Present? && vocabFile.Exists()) || fit.Some?
    }

    /** The keyword vectorizer ends up with a non-empty vocabulary: the
        loaded one after a full load, the fitted one otherwise (a failed fit
        leaves the unfitted vectorizer). */
    predicate KeywordVocabulary() {
      if matrixFile.Present? && vocabFile.Present? && reconstructs then |vocabFile.value| > 0
      else fit.Some? && |fit.value.vocabulary| > 0
    }
  }

  /** The status strings of the health report. */
  const Healthy := "healthy"
  const Unhealthy := "unhealthy"

  /** The message of the health report: running, or the start-up failure. */
  datatype HealthMessage = Running | InitializationFailed(error: Option<InitError>)

  /** The dictionary `get_health_status` returns; `capabilities` is `None`
      for the empty dictionary. */
  datatype Health = Health(status: string, message: HealthMessage, documentsLoaded: nat,
                           capabilities: Option<Capabilities>)

  /** The state of the `search` loop: `results`, `seen_titles`, `displayed`. */
  datatype Progress = Progress(results: seq<SearchResult>, seen: set<string>, displayed: nat)

  /** The loop state agrees with the walk state `st`. */
  ghost predicate Tracks(p: Progress, st: WalkState, markup: string -> string) {
    && p.seen == st.seen && p.displayed == |st.picked| == |p.results|
    && forall k :: 0 <= k < |p.results| ==> p.results[k] == ServiceResult(st.picked[k], k + 1, markup)
  }

  lemma AnswerFails(entries: seq<Scored>, n: nat, t: Table, topK: int, markup: string -> string)
    requires n <= |entries| && WalkTo(entries, n, t, topK).Err?
    ensures Answer(entries, t, topK, markup) == Err(WalkTo(entries, n, t, topK).error)
  {
    WalkStopped(entries, n, |entries|, t, topK);
  }

  lemma AnswerDone(entries: seq<Scored>, n: nat, t: Table, topK: int, markup: string -> string,
                   st: WalkState, results: seq<SearchResult>)
    requires n <= |entries| && WalkTo(entries, n, t, topK) == Ok(st)
    requires n == |entries| || |st.picked| >= topK
    requires |results| == |st.picked|
    requires forall k :: 0 <= k < |results| ==> results[k] == ServiceResult(st.picked[k], k + 1, markup)
    ensures Answer(entries, t, topK, markup) == Ok(results)
  {
    if n < |entries| {
      WalkStopped(entries, n, |entries|, t, topK);
    }
    assert results == ServiceRows(st.picked, markup);
  }

  class SearchService {
    const csvPath: string
    var hybridSearcher: HybridSearcher?
    var df: Option<Table>
    var isInitialized: bool
    var initializationError: Option<InitError>

    /** An initialised service has its searcher, and the searcher's formatter
        reads the service's table. */
    ghost predicate Valid()
      reads this
    {
      isInitialized ==> hybridSearcher != null && df.Some? && hybridSearcher.formatter.df == df.value
    }

    /** `__init__`: the fields start empty, then `_initialize` runs. */
    constructor (csvPath: string, env: Environment, markup: string -> string)
      requires env.Consistent()
      ensures this.csvPath == csvPath && Valid()
      ensures env.csv.None? ==>
        !isInitialized && df == None && hybridSearcher == null && initializationError == Some(LoadFailed(ReadFailed))
      ensures env.csv.Some? ==> df == env.csv
      ensures env.csv.Some? && !env.Validates() ==>
        && !isInitialized && hybridSearcher == null
        && initializationError == Some(LoadFailed(ColumnsMissing(
             MissingColumns(["TITLE", "DESCRIPTION"], env.csv.value.columns), env.csv.value.columns)))
      ensures env.Validates() ==>
        && isInitialized && initializationError == None
        && fresh(hybridSearcher) && fresh(hybridSearcher.semantic) && fresh(hybridSearcher.keyword)
        && HasTextColumns(hybridSearcher.formatter.df)
        && (hybridSearcher.semantic.IsReady() <==> env.SemanticReady())
        && (hybridSearcher.keyword.IsReady() <==> env.KeywordReady())
        && (hybridSearcher.keyword.HasVocabulary() <==> env.KeywordVocabulary())
    {
      this.csvPath := csvPath;
      hybridSearcher := null;
      df := None;
      isInitialized := false;
      initializationError := None;
      new;
      Initialize(env, markup);
    }

    /** `_initialize`: load and validate the table, process its texts, load
        or build the indices (the semantic one only with a loaded model),
        and assemble the searcher. A failure is recorded, not raised; the
        table stays assigned when only validation fails. */
    method Initialize(env: Environment, markup: string -> string)
      requires env.Consistent() && !isInitialized
      modifies this
      ensures Valid()
      ensures env.csv.None? ==>
        && !isInitialized && df == old(df) && hybridSearcher == old(hybridSearcher)
        && initializationError == Some(LoadFailed(ReadFailed))
      ensures env.csv.Some? ==> df == env.csv
      ensures env.csv.Some? && !env.Validates() ==>
        && !isInitialized && hybridSearcher == old(hybridSearcher)
        && initializationError == Some(LoadFailed(ColumnsMissing(
             MissingColumns(["TITLE", "DESCRIPTION"], env.csv.value.columns), env.csv.value.columns)))
      ensures env.Validates() ==>
        && isInitialized && initializationError == old(initializationError)
        && fresh(hybridSearcher) && fresh(hybridSearcher.semantic) && fresh(hybridSearcher.keyword)
        && HasTextColumns(hybridSearcher.formatter.df)
        && (hybridSearcher.semantic.IsReady() <==> env.SemanticReady())
        && (hybridSearcher.keyword.IsReady() <==> env.KeywordReady())
        && (hybridSearcher.keyword.HasVocabulary() <==> env.KeywordVocabulary())
    {
      var dataLoader := new DataLoader(csvPath);
      var loaded := dataLoader.LoadData(env.csv);
      if loaded.Err? {
        initializationError := Some(LoadFailed(loaded.error));
        return;
      }
      df := Some(loaded.value);
      var validation := dataLoader.ValidateColumns(["TITLE", "DESCRIPTION"]);
      if validation.Fail? {
        initializationError := Some(LoadFailed(validation.error));
        return;
      }
      hybridSearcher := BuildSearcher(loaded.value, env, markup);
      isInitialized := true;
    }

    /** The rest of `_initialize` once the table is validated: process the
        texts, load or build the indices, assemble the searcher. */
    static method BuildSearcher(table: Table, env: Environment, markup: string -> string)
      returns (searcher: HybridSearcher)
      requires env.Consistent() && env.csv == Some(table)
      requires "TITLE" in table.columns && "DESCRIPTION" in table.columns
      ensures fresh(searcher) && fresh(searcher.semantic) && fresh(searcher.keyword)
      ensures searcher.formatter.df == table && HasTextColumns(table)
      ensures searcher.semantic.IsReady() <==> env.SemanticReady()
      ensures searcher.keyword.IsReady() <==> env.KeywordReady()
      ensures searcher.keyword.HasVocabulary() <==> env.KeywordVocabulary()
    {
      ValidatedRowsHaveColumns(table);
      var processed := ProcessDocuments(table, "TITLE", "DESCRIPTION", markup);
      var texts := processed.value;
      var formatter := new ResultFormatter(table);
      var semanticAvailable := env.modelLoaded;
      var semantic := new SemanticIndex(semanticAvailable);
      var keyword := new KeywordIndex();
      if semanticAvailable {
        var _ := semantic.LoadOrCreateIndex(texts, env.embeddingsFile, env.indexFile, env.encoded, env.added, env.semanticSaved);
      }
      var _ := keyword.LoadOrCreateIndex(texts, env.matrixFile, env.vocabFile, env.reconstructs, env.fit, env.keywordSaved);
      searcher := new HybridSearcher(semantic, keyword, formatter);
    }

    /** `get_health_status`. */
    function GetHealthStatus(): (h: Health)
      reads this, if hybridSearcher != null then {hybridSearcher.semantic, hybridSearcher.keyword} else {}
      ensures h.status == Healthy <==> isInitialized && hybridSearcher != null
      ensures h.status == Healthy ==>
        && h.message == Running
        && h.documentsLoaded == (if df.Some? then |df.value.rows| else 0)
        && h.capabilities == Some(CapabilitiesFor(hybridSearcher.semantic.IsReady(), hybridSearcher.keyword.IsReady()))
      ensures h.status != Healthy ==>
        h == Health(Unhealthy, InitializationFailed(initializationError), 0, None)
    {
      if isInitialized && hybridSearcher != null then
        Health(Healthy, Running, if df.Some? then |df.value.rows| else 0, Some(hybridSearcher.GetSearchCapabilities()))
      else
        Health(Unhealthy, InitializationFailed(initializationError), 0, None)
    }

    /** `search`: refuses before a successful start-up; otherwise one
        analysis drives both retrievals, the fusion and the strategy line,
        and the sorted fused scores are walked as the console does. */
    method Search(query: string, topK: int, alnum: char -> bool, markup: string -> string,
                  faiss: nat -> Option<seq<Hit>>, similarities: Option<seq<real>>, order: seq<int>)
      returns (r: Result<SearchResponse, SearchError>)
      requires Valid()
      requires similarities.Some? ==> IsArgsort(order, similarities.value)
      ensures !isInitialized ==> r == Err(NotInitialized(initializationError))
      ensures isInitialized ==>
        var a := AnalyzeQuery(query, alnum);
        var searcher := hybridSearcher;
        var combined := Fused(SemanticResults(searcher.semantic.IsReady(), a, faiss),
                              KeywordResults(searcher.keyword.IsReady(), searcher.keyword.HasVocabulary(), a, similarities, order), a);
        r == Respond(df.value, a, combined, topK, markup)
    {
      if !isInitialized {
        return Err(NotInitialized(initializationError));
      }
      var analysis := AnalyzeQuery(query, alnum);
      var semanticResults := hybridSearcher.GetSemanticResults(analysis, faiss);
      var keywordResults := hybridSearcher.GetKeywordResults(analysis, similarities, order);
      var combined := hybridSearcher.CombineResults(semanticResults, keywordResults, analysis);
      var strategy := if analysis.semanticWeight > 0.0
        then Weighted(analysis.semanticWeight, analysis.keywordWeight, analysis.strategy)
        else KeywordMatchingOnly;
      var sortedResults := SortByScore(Items(combined));
      var answer := CollectResults(sortedResults, df.value, topK, markup);
      if answer.Err? {
        return Err(RowUnreadable(answer.error));
      }
      r := Ok(SearchResponse(answer.value, strategy));
    }

    /** The loop of `search` over the sorted entries, with its `break` once
        `top_k` records are built. */
    method CollectResults(entries: seq<Scored>, t: Table, topK: int, markup: string -> string)
      returns (r: Result<seq<SearchResult>, int>)
      ensures r == Answer(entries, t, topK, markup)
    {
      var progress := Progress([], {}, 0);
      ghost var st := WalkState({}, []);
      var i := 0;
      while i < |entries|
        invariant 0 <= i <= |entries| && WalkTo(entries, i, t, topK) == Ok(st)
        invariant Tracks(progress, st, markup)
      {
        if progress.displayed >= topK {
          break;
        }
        var next;
        next, st := CollectEntry(entries, i, t, topK, markup, progress, st);
        if next.Err? {
          AnswerFails(entries, i + 1, t, topK, markup);
          return Err(next.error);
        }
        progress := next.value;
        i := i + 1;
      }
      AnswerDone(entries, i, t, topK, markup, st, progress.results);
      return Ok(progress.results);
    }

    /** One pass of the loop body: look the row up (raising for an
        unreadable row), skip a seen title, otherwise append its record. */
    method CollectEntry(entries: seq<Scored>, i: nat, t: Table, topK: int, markup: string -> string,
                        progress: Progress, ghost st: WalkState)
      returns (r: Result<Progress, int>, ghost st': WalkState)
      requires i < |entries| && WalkTo(entries, i, t, topK) == Ok(st)
      requires Tracks(progress, st, markup) && progress.displayed < topK
      ensures r.Err? ==> r.error == entries[i].idx && WalkTo(entries, i + 1, t, topK) == Err(r.error)
      ensures r.Ok? ==> WalkTo(entries, i + 1, t, topK) == Ok(st') && Tracks(r.value, st', markup)
    {
      assert WalkTo(entries, i + 1, t, topK) == WalkOn(entries, i, t, topK);
      assert WalkOn(entries, i, t, topK) == WalkStep(entries, i, t, topK, st);
      st' := st;
      var idx := entries[i].idx;
      var row := ILoc(t, idx);
      if row.None? || "TITLE" !in row.value {
        return Err(idx), st;
      }
      var title := Strip(row.value["TITLE"]);
      if title in progress.seen {
        return Ok(progress), st;
      }
      var date := Field(row.value, "MOD_DATE", "N/A");
      var source := Field(row.value, "SOURCE_NAME", "N/A");
      var description := markup(Field(row.value, "DESCRIPTION", ""));
      var shortSummary := Prefix(Replace(Strip(description), '\n', ' '), 300);
      if |shortSummary| == 300 && |description| > 300 {
        shortSummary := shortSummary + "...";
      }
      var result := SearchResult(progress.displayed + 1, title, date, source, shortSummary, entries[i].score);
      r := Ok(Progress(progress.results + [result], progress.seen + {title}, progress.displayed + 1));
      st' := WalkState(st.seen + {title}, st.picked + [Pick(i, entries[i], row.value, title)]);
    }
  }
}
