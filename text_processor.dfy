/** Text cleaning: markup removal, whitespace normalisation, and the
    per-document text that both indexes are built from (the title twice, then
    the description). */
module TextProcessor {
  import opened Wrappers
  import opened Strings
  import opened DataLoader

  /** `clean_html`. An empty text gives the empty string; otherwise the text
      is the markup parser's visible text (`markup`, which stands for
      `BeautifulSoup(text, "html.parser").get_text(separator=" ")`) with
      surrounding whitespace stripped. */
  function CleanHtml(text: string, markup: string -> string): string {
    if text == [] then [] else Strip(markup(text))
  }

  /** The cleaned text is empty for an empty input, has no whitespace at
      either end, and so is unchanged by stripping it again. */
  lemma CleanedTextIsTrimmed(text: string, markup: string -> string)
    ensures var r := CleanHtml(text, markup);
      && (text == [] ==> r == [])
      && (r == [] || (!IsSpace(r[0]) && !IsSpace(r[|r| - 1])))
      && Strip(r) == r
  {
    if text != [] {
      StripShape(markup(text));
    }
    StripUnpadded(CleanHtml(text, markup));
  }

  /** `normalize_whitespace`: the words of the text joined by single
      spaces. */
  function NormalizeWhitespace(text: string): string {
    Join(Words(text))
  }

  /** Normalising keeps the words of the text, in order. */
  lemma NormalizeKeepsWords(text: string)
    ensures Words(NormalizeWhitespace(text)) == Words(text)
  {
    WordsAreWords(text);
    WordsOfJoin(Words(text));
  }

  /** The normalised text has no whitespace at either end, and every
      whitespace character in it is a single ' ' between two non-space
      characters; it is empty exactly when the text has no words. */
  lemma NormalizedShape(text: string)
    ensures var r := NormalizeWhitespace(text);
      && (r == [] <==> Words(text) == [])
      && (r == [] || (!IsSpace(r[0]) && !IsSpace(r[|r| - 1])))
      && forall i :: 0 <= i < |r| && IsSpace(r[i]) ==>
           r[i] == ' ' && 0 < i < |r| - 1 && !IsSpace(r[i - 1]) && !IsSpace(r[i + 1])
  {
    WordsAreWords(text);
    JoinShape(Words(text));
  }

  /** Normalising twice is normalising once. */
  lemma NormalizeIdempotent(text: string)
    ensures NormalizeWhitespace(NormalizeWhitespace(text)) == NormalizeWhitespace(text)
  {
    NormalizeKeepsWords(text);
  }

  /** `process_document`: the cleaned title, the cleaned title again and the
      cleaned description, separated by spaces, then normalised. */
  function ProcessDocument(title: string, description: string, markup: string -> string): string {
    var cleanTitle := CleanHtml(title, markup);
    var cleanDescription := CleanHtml(description, markup);
    NormalizeWhitespace(cleanTitle + " " + cleanTitle + " " + cleanDescription)
  }

  /** The processed text holds the title's words twice, then the
      description's words, and nothing else: the title weighs double in the
      indexes. */
  lemma TitleCountsTwice(title: string, description: string, markup: string -> string)
    ensures var t := Words(CleanHtml(title, markup));
      Words(ProcessDocument(title, description, markup)) == t + t + Words(CleanHtml(description, markup))
  {
    var ct, cd := CleanHtml(title, markup), CleanHtml(description, markup);
    var combined := ct + " " + ct + " " + cd;
    assert combined == ct + [' '] + (ct + [' '] + cd);
    WordsAroundSpace(ct, ' ', ct + [' '] + cd);
    WordsAroundSpace(ct, ' ', cd);
    NormalizeKeepsWords(combined);
  }

  /** A document whose title and description are both empty becomes the empty
      text. */
  lemma EmptyDocument(markup: string -> string)
    ensures ProcessDocument("", "", markup) == ""
  {
    TitleCountsTwice("", "", markup);
    NormalizeKeepsWords(CleanHtml("", markup) + " " + CleanHtml("", markup) + " " + CleanHtml("", markup));
    NormalizedShape(CleanHtml("", markup) + " " + CleanHtml("", markup) + " " + CleanHtml("", markup));
  }

  /** A row lacks a column the loop indexes, which raises `KeyError`. */
  datatype ProcessError = KeyMissing(row: nat, column: string)

  /** The processed text of every row, in row order, for rows that all have
      both columns. */
  function ProcessRows(rows: seq<Row>, titleCol: string, descCol: string, markup: string -> string): (texts: seq<string>)
    requires forall k :: 0 <= k < |rows| ==> titleCol in rows[k] && descCol in rows[k]
    ensures |texts| == |rows|
    ensures forall k :: 0 <= k < |rows| ==>
      texts[k] == ProcessDocument(rows[k][titleCol], rows[k][descCol], markup)
  {
    if rows == [] then []
    else
      var last := rows[|rows| - 1];
      ProcessRows(rows[..|rows| - 1], titleCol, descCol, markup)
        + [ProcessDocument(last[titleCol], last[descCol], markup)]
  }

  /** One iteration of the loop in `process_documents`: row `i` processed
      and appended. */
  method ProcessNext(processed: seq<string>, rows: seq<Row>, i: nat, titleCol: string, descCol: string, markup: string -> string)
    returns (next: seq<string>)
    requires i < |rows|
    requires forall k :: 0 <= k <= i ==> titleCol in rows[k] && descCol in rows[k]
    requires processed == ProcessRows(rows[..i], titleCol, descCol, markup)
    ensures next == ProcessRows(rows[..i + 1], titleCol, descCol, markup)
  {
    var row := rows[i];
    assert rows[..i + 1][..i] == rows[..i];
    next := processed + [ProcessDocument(row[titleCol], row[descCol], markup)];
  }

  /** `process_documents`: one processed text per row, in row order. Indexing
      a column a row lacks raises; the error names the first such row and the
      column that failed there. */
  method ProcessDocuments(df: Table, titleCol: string, descCol: string, markup: string -> string)
    returns (r: Result<seq<string>, ProcessError>)
    ensures r.Ok? <==> forall k :: 0 <= k < |df.rows| ==> titleCol in df.rows[k] && descCol in df.rows[k]
    ensures r.Ok? ==> r.value == ProcessRows(df.rows, titleCol, descCol, markup)
    ensures r.Err? ==> r.error.row < |df.rows| && r.error.column in {titleCol, descCol}
    ensures r.Err? ==> r.error.column !in df.rows[r.error.row]
    ensures r.Err? ==> forall k :: 0 <= k < r.error.row ==> titleCol in df.rows[k] && descCol in df.rows[k]
  {
    var processed: seq<string> := [];
    var i := 0;
    while i < |df.rows| && titleCol in df.rows[i] && descCol in df.rows[i]
      invariant 0 <= i <= |df.rows|
      invariant forall k :: 0 <= k < i ==> titleCol in df.rows[k] && descCol in df.rows[k]
      invariant processed == ProcessRows(df.rows[..i], titleCol, descCol, markup)
    {
      processed := ProcessNext(processed, df.rows, i, titleCol, descCol, markup);
      i := i + 1;
    }
    if i < |df.rows| {
      var column := if titleCol !in df.rows[i] then titleCol else descCol;
      return Err(KeyMissing(i, column));
    }
    assert df.rows[..i] == df.rows;
    return Ok(processed);
  }
}
