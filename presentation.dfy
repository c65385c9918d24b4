/** What a shown result is made of, shared by the console formatter and the
    search service: the strategy line of the header, the description summary,
    and the direct-match counts printed when nothing is shown. */
module Presentation {
  import opened Strings
  import opened DataLoader
  import opened QueryAnalyzer

  /** The strategy part of the header: both weights (printed as whole
      percentages) with the strategy label, or keyword matching only. */
  datatype StrategyLine =
    | Weighted(semanticWeight: real, keywordWeight: real, strategy: string)
    | KeywordMatchingOnly

  /** The weighted form when the semantic weight is positive, otherwise
      keyword matching only. */
  function StrategyLineOf(a: QueryAnalysis): StrategyLine {
    if a.semanticWeight > 0.0 then Weighted(a.semanticWeight, a.keywordWeight, a.strategy)
    else KeywordMatchingOnly
  }

  /** Every analysed query gets a positive semantic weight, so the header
      always shows the weighted form with the weights of the query's class;
      "Keyword matching only" is never shown. */
  lemma AnalyzedQueryIsWeighted(query: string, alnum: char -> bool)
    ensures var a := AnalyzeQuery(query, alnum);
      && StrategyLineOf(a).Weighted?
      && (a.isShort ==> StrategyLineOf(a) == Weighted(0.9, 0.1, "keyword-focused"))
      && (!a.isShort ==> StrategyLineOf(a) == Weighted(0.3, 0.7, "semantic-focused"))
  {
  }

  /** The visible text of a row's DESCRIPTION (the empty text when the row
      has none), by the markup parser `markup`. */
  function Description(row: Row, markup: string -> string): string {
    markup(Field(row, "DESCRIPTION", ""))
  }

  /** The description stripped, with newlines turned into spaces, cut to its
      first 300 characters. */
  function ShortSummary(description: string): (r: string)
    ensures |r| <= 300
    ensures forall i :: 0 <= i < |r| ==> r[i] != '\n'
  {
    Prefix(Replace(Strip(description), '\n', ' '), 300)
  }

  /** A stripped description of at most 300 characters is kept whole; a
      longer one is cut to exactly its first 300. */
  lemma ShortSummaryCut(description: string)
    ensures var whole := Replace(Strip(description), '\n', ' ');
      && (|Strip(description)| <= 300 ==> ShortSummary(description) == whole)
      && (|Strip(description)| > 300 ==> ShortSummary(description) == whole[..300])
  {
  }

  /** The console always prints "..." after the summary. */
  function ConsoleSummary(description: string): (r: string)
    ensures 3 <= |r| <= 303 && r[|r| - 3..] == "..."
  {
    ShortSummary(description) + "..."
  }

  /** The service appends "..." only when the summary is 300 characters long
      and the unstripped description is longer than 300. */
  function ServiceSummary(description: string): (r: string)
    ensures |r| <= 303
  {
    var short := ShortSummary(description);
    if |short| == 300 && |description| > 300 then short + "..." else short
  }

  /** The service's summary ends in "..." exactly when the stripped
      description has at least 300 characters and the raw one more than 300. */
  lemma ServiceEllipsisIff(description: string)
    ensures ServiceSummary(description) == ShortSummary(description) + "..." <==>
      |Strip(description)| >= 300 && |description| > 300
  {
    StripShape(description);
    ShortSummaryCut(description);
  }

  /** A description cut short is marked with "...". */
  lemma TruncatedSummaryHasEllipsis(description: string)
    requires |Strip(description)| > 300
    ensures ServiceSummary(description) == Replace(Strip(description), '\n', ' ')[..300] + "..."
  {
    StripShape(description);
    ShortSummaryCut(description);
  }

  /** A description of at most 300 characters is shown whole, without
      "...". */
  lemma ShortDescriptionShownWhole(description: string)
    requires |description| <= 300
    ensures ServiceSummary(description) == Replace(Strip(description), '\n', ' ')
  {
    StripShape(description);
    ShortSummaryCut(description);
  }

  /** The ellipsis test looks at the unstripped description: a description
      whose stripped text is exactly 300 characters, with surrounding
      whitespace, is shown whole and still gets "...". */
  lemma PaddedDescriptionGetsEllipsis(description: string)
    requires |Strip(description)| == 300 && |description| > 300
    ensures ServiceSummary(description) == Replace(Strip(description), '\n', ' ') + "..."
  {
    StripShape(description);
    ShortSummaryCut(description);
  }

  /** The row's `column`, lower-cased, is matched somewhere by the compiled
      pattern `search` (`pattern.search(text) is not None`). */
  predicate Matches(row: Row, column: string, search: string -> bool, lower: string -> string)
    requires column in row
  {
    search(lower(row[column]))
  }

  /** The number of rows whose `column`, lower-cased, the pattern matches:
      the length of the frame that `df[column].str.lower().str.contains(...)`
      selects. */
  function CountMatches(rows: seq<Row>, column: string, search: string -> bool, lower: string -> string): (n: nat)
    requires forall k :: 0 <= k < |rows| ==> column in rows[k]
    ensures n <= |rows|
  {
    if rows == [] then 0
    else
      var last := rows[|rows| - 1];
      CountMatches(rows[..|rows| - 1], column, search, lower) + if Matches(last, column, search, lower) then 1 else 0
  }

  /** The positions of the rows whose `column`, lower-cased, the pattern
      matches. */
  function MatchingRows(rows: seq<Row>, column: string, search: string -> bool, lower: string -> string): set<nat>
    requires forall k :: 0 <= k < |rows| ==> column in rows[k]
  {
    set k: nat | k < |rows| && Matches(rows[k], column, search, lower)
  }

  lemma MatchingRowsSnoc(rows: seq<Row>, column: string, search: string -> bool, lower: string -> string)
    requires rows != [] && forall k :: 0 <= k < |rows| ==> column in rows[k]
    ensures var n := |rows| - 1;
      MatchingRows(rows, column, search, lower) ==
        MatchingRows(rows[..n], column, search, lower) + if Matches(rows[n], column, search, lower) then {n} else {}
  {
    var n := |rows| - 1;
    var init := rows[..n];
    assert forall k :: 0 <= k < n ==> init[k] == rows[k];
  }

  /** The count is the number of matching rows. */
  lemma {:induction false} CountIsMatchingRows(rows: seq<Row>, column: string, search: string -> bool, lower: string -> string)
    requires forall k :: 0 <= k < |rows| ==> column in rows[k]
    ensures CountMatches(rows, column, search, lower) == |MatchingRows(rows, column, search, lower)|
  {
    if rows != [] {
      var n := |rows| - 1;
      CountIsMatchingRows(rows[..n], column, search, lower);
      MatchingRowsSnoc(rows, column, search, lower);
      assert n !in MatchingRows(rows[..n], column, search, lower);
    }
  }

  /** A pattern that matches every text, as the empty query does, counts
      every row. */
  lemma {:induction false} UniversalPatternMatchesAll(rows: seq<Row>, column: string, search: string -> bool, lower: string -> string)
    requires forall k :: 0 <= k < |rows| ==> column in rows[k]
    requires forall text :: search(text)
    ensures CountMatches(rows, column, search, lower) == |rows|
  {
    if rows != [] {
      UniversalPatternMatchesAll(rows[..|rows| - 1], column, search, lower);
    }
  }
}
