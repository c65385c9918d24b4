/** The console presentation of fused scores: a header, then the best
    results with repeated titles skipped, or a no-results notice with the
    number of direct text matches. What is printed is modelled as a value. */
module ResultFormatter {
  import opened Wrappers
  import opened Strings
  import opened SearchTypes
  import opened DataLoader
  import opened QueryAnalyzer
  import opened Ranking
  import opened Presentation

  /** One printed result: its number, row position, fused score, stripped
      title, date, source and summary. */
  datatype Shown = Shown(number: nat, idx: int, score: real, title: string, date: string, source: string, summary: string)

  /** The header: the query as typed and the strategy line. */
  datatype Header = Header(query: string, strategy: StrategyLine)

  /** The direct matches of the lower-cased query in TITLE and in
      DESCRIPTION, counted over all rows. */
  datatype MatchCounts = MatchCounts(title: nat, description: nat)

  /** Everything one call prints: the header if any, the shown results, and
      the no-results notice if any. */
  datatype Display = Display(header: Option<Header>, shown: seq<Shown>, noResults: Option<MatchCounts>)

  /** Every row has the TITLE and DESCRIPTION columns, as column validation
      guarantees before a formatter is built. */
  predicate HasTextColumns(t: Table) {
    forall k :: 0 <= k < |t.rows| ==> "TITLE" in t.rows[k] && "DESCRIPTION" in t.rows[k]
  }

  /** Why `format_and_display_results` raises: the row at `idx` cannot be
      read, or the lower-cased query is not a valid regular expression. */
  datatype FormatError = UnreadableRow(idx: int) | BadPattern(pattern: string)

  /** `_display_no_results`: the counts it reports. `str.contains` reads the
      lower-cased query as a regular expression; `compile` is Python's
      `re.compile`, giving the pattern's search test, or `None` when the
      pattern raises `re.error`. The pattern is compiled before any row is
      looked at, so an invalid one raises even for an empty table. */
  function NoResultCounts(t: Table, query: string, lower: string -> string,
                          compile: string -> Option<string -> bool>): (r: Result<MatchCounts, FormatError>)
    requires HasTextColumns(t)
    ensures r.Err? <==> compile(lower(query)).None?
    ensures r.Err? ==> r.error == BadPattern(lower(query))
    ensures r.Ok? ==> r.value.title <= |t.rows| && r.value.description <= |t.rows|
  {
    match compile(lower(query))
    case None => Err(BadPattern(lower(query)))
    case Some(search) =>
      Ok(MatchCounts(CountMatches(t.rows, "TITLE", search, lower),
                     CountMatches(t.rows, "DESCRIPTION", search, lower)))
  }

  /** A display that ends in the no-results notice, or the `re.error` that
      printing the notice raises. */
  function NoResults(t: Table, query: string, header: Option<Header>, lower: string -> string,
                     compile: string -> Option<string -> bool>): Result<Display, FormatError>
    requires HasTextColumns(t)
  {
    match NoResultCounts(t, query, lower, compile)
    case Err(e) => Err(e)
    case Ok(counts) => Ok(Display(header, [], Some(counts)))
  }

  /** `_display_single_result`: missing dates and sources print as "N/A". */
  function DisplaySingleResult(p: Pick, number: nat, markup: string -> string): Shown {
    Shown(number, p.entry.idx, p.entry.score, p.title,
          Field(p.row, "MOD_DATE", "N/A"), Field(p.row, "SOURCE_NAME", "N/A"),
          ConsoleSummary(Description(p.row, markup)))
  }

  /** The kept entries as printed, numbered from 1. */
  function ShownRows(ps: seq<Pick>, markup: string -> string): (r: seq<Shown>)
    ensures |r| == |ps|
    ensures forall k :: 0 <= k < |ps| ==> r[k] == DisplaySingleResult(ps[k], k + 1, markup)
  {
    if ps == [] then []
    else ShownRows(ps[..|ps| - 1], markup) + [DisplaySingleResult(ps[|ps| - 1], |ps|, markup)]
  }

  lemma ShownRowsSnoc(ps: seq<Pick>, p: Pick, markup: string -> string)
    ensures ShownRows(ps + [p], markup) == ShownRows(ps, markup) + [DisplaySingleResult(p, |ps| + 1, markup)]
  {
    assert (ps + [p])[..|ps|] == ps;
  }

  /** The loop's record of the walk so far: its seen titles, its count and
      the rows it has shown. */
  ghost predicate Mirrors(walk: Walk, st: WalkState, markup: string -> string) {
    && walk.seen == st.seen && walk.displayed == |st.picked| == |walk.shown|
    && forall k :: 0 <= k < |walk.shown| ==> walk.shown[k] == DisplaySingleResult(st.picked[k], k + 1, markup)
  }

  /** A walk that raised at position `n` raises for the whole entries. */
  lemma ShownForFails(entries: seq<Scored>, n: nat, t: Table, topK: int, markup: string -> string)
    requires n <= |entries| && WalkTo(entries, n, t, topK).Err?
    ensures ShownFor(entries, t, topK, markup) == Err(WalkTo(entries, n, t, topK).error)
  {
    WalkStopped(entries, n, |entries|, t, topK);
  }

  /** A walk that has covered the entries, or has kept `top_k` of them,
      shows its kept entries. */
  lemma ShownForDone(entries: seq<Scored>, n: nat, t: Table, topK: int, markup: string -> string, st: WalkState, shown: seq<Shown>)
    requires n <= |entries| && WalkTo(entries, n, t, topK) == Ok(st)
    requires n == |entries| || |st.picked| >= topK
    requires |shown| == |st.picked|
    requires forall k :: 0 <= k < |shown| ==> shown[k] == DisplaySingleResult(st.picked[k], k + 1, markup)
    ensures ShownFor(entries, t, topK, markup) == Ok(shown)
  {
    if n < |entries| {
      WalkStopped(entries, n, |entries|, t, topK);
    }
    assert shown == ShownRows(st.picked, markup);
  }

  /** The results the walk over the sorted `entries` prints, or the `idx`
      of the row whose lookup raises. */
  function ShownFor(entries: seq<Scored>, t: Table, topK: int, markup: string -> string): Result<seq<Shown>, int> {
    match Select(entries, t, topK)
    case Err(idx) => Err(idx)
    case Ok(ps) => Ok(ShownRows(ps, markup))
  }

  /** What `format_and_display_results` prints, or why it raises. */
  function Render(t: Table, query: string, combined: ScoreTable, analysis: QueryAnalysis, topK: int,
                  markup: string -> string, lower: string -> string,
                  compile: string -> Option<string -> bool>): Result<Display, FormatError>
    requires combined.Valid() && HasTextColumns(t)
  {
    if combined.keys == [] then NoResults(t, query, None, lower, compile)
    else
      match ShownFor(SortByScore(Items(combined)), t, topK, markup)
      case Err(idx) => Err(UnreadableRow(idx))
      case Ok(shown) =>
        var header := Some(Header(query, StrategyLineOf(analysis)));
        if shown == [] then NoResults(t, query, header, lower, compile)
        else Ok(Display(header, shown, None))
  }

  /** At most `top_k` results (none for `top_k <= 0`), numbered 1, 2, ...,
      with pairwise distinct titles, each the stripped title of its row. */
  lemma ShownForCounted(entries: seq<Scored>, t: Table, topK: int, markup: string -> string)
    ensures var r := ShownFor(entries, t, topK, markup);
      r.Ok? ==>
        && (|r.value| <= topK || r.value == [])
        && (forall k :: 0 <= k < |r.value| ==>
              r.value[k].number == k + 1 && TitleAt(t, r.value[k].idx) == Some(r.value[k].title))
        && (forall k, l :: 0 <= k < l < |r.value| ==> r.value[k].title != r.value[l].title)
  {
    SelectSound(entries, t, topK);
  }

  /** The results follow the entries: each is an entry, in the entries'
      order, so in descending score order when the entries are sorted. */
  lemma ShownForOrdered(entries: seq<Scored>, t: Table, topK: int, markup: string -> string)
    requires NonIncreasing(entries)
    ensures var r := ShownFor(entries, t, topK, markup);
      r.Ok? ==>
        && (forall k :: 0 <= k < |r.value| ==> Scored(r.value[k].idx, r.value[k].score) in entries)
        && (forall k, l :: 0 <= k < l < |r.value| ==> r.value[k].score >= r.value[l].score)
  {
    SelectSound(entries, t, topK);
    if Select(entries, t, topK).Ok? {
      var ps := Select(entries, t, topK).value;
      PicksDescending(entries, ps);
      forall k | 0 <= k < |ps|
        ensures ps[k].entry in entries
      {
        assert ps[k].entry == entries[ps[k].pos];
      }
    }
  }

  /** Fewer than `top_k` results means every entry's title is shown. */
  lemma ShownForComplete(entries: seq<Scored>, t: Table, topK: int, markup: string -> string)
    ensures var r := ShownFor(entries, t, topK, markup);
      r.Ok? && |r.value| < topK ==> forall q :: 0 <= q < |entries| ==>
        TitleAt(t, entries[q].idx).Some? &&
        exists k :: 0 <= k < |r.value| && r.value[k].title == TitleAt(t, entries[q].idx).value
  {
    SelectSound(entries, t, topK);
    var r := ShownFor(entries, t, topK, markup);
    if r.Ok? && |r.value| < topK {
      var ps := Select(entries, t, topK).value;
      assert AllSeen(entries, |entries|, t, TitleSet(ps));
      forall q | 0 <= q < |entries|
        ensures TitleAt(t, entries[q].idx).Some? &&
          exists k :: 0 <= k < |r.value| && r.value[k].title == TitleAt(t, entries[q].idx).value
      {
        var k := ShownTitle(ps, markup, TitleAt(t, entries[q].idx).value);
      }
    }
  }

  /** Over entries in descending score order, every entry scoring above the
      last shown result has its title shown: a title is passed over only
      when it repeats one already shown, whether or not `top_k` is reached. */
  lemma ShownForLeading(entries: seq<Scored>, t: Table, topK: int, markup: string -> string)
    requires NonIncreasing(entries)
    ensures var r := ShownFor(entries, t, topK, markup);
      r.Ok? && r.value != [] ==> forall q :: 0 <= q < |entries| && entries[q].score > r.value[|r.value| - 1].score ==>
        TitleAt(t, entries[q].idx).Some? &&
        exists k :: 0 <= k < |r.value| && r.value[k].title == TitleAt(t, entries[q].idx).value
  {
    SelectSound(entries, t, topK);
    var r := ShownFor(entries, t, topK, markup);
    if r.Ok? && r.value != [] {
      var ps := Select(entries, t, topK).value;
      var last := ps[|ps| - 1];
      assert AllSeen(entries, last.pos, t, TitleSet(ps));
      forall q | 0 <= q < |entries| && entries[q].score > r.value[|r.value| - 1].score
        ensures TitleAt(t, entries[q].idx).Some? &&
          exists k :: 0 <= k < |r.value| && r.value[k].title == TitleAt(t, entries[q].idx).value
      {
        assert entries[last.pos].score == r.value[|r.value| - 1].score;
        assert q < last.pos;
        var k := ShownTitle(ps, markup, TitleAt(t, entries[q].idx).value);
      }
    }
  }

  /** A kept title is the title of one of the printed results. */
  lemma ShownTitle(ps: seq<Pick>, markup: string -> string, title: string) returns (k: int)
    requires title in TitleSet(ps)
    ensures 0 <= k < |ps| && ShownRows(ps, markup)[k].title == title
  {
    TitleSetMember(ps, title);
    k :| 0 <= k < |ps| && ps[k].title == title;
  }

  /** The sorted items of a score table are exactly its entries. */
  lemma SortedItemsOfTable(combined: ScoreTable, e: Scored)
    requires combined.Valid()
    ensures e in SortByScore(Items(combined)) <==> e.idx in combined.scores && e.score == combined.scores[e.idx]
  {
    var items := Items(combined);
    assert e in SortByScore(items) <==> e in multiset(items);
    if e.idx in combined.scores {
      var i :| 0 <= i < |combined.keys| && combined.keys[i] == e.idx;
      assert items[i] == Scored(e.idx, combined.scores[e.idx]);
    }
  }

  /** The header and the no-results notice: a header exactly when there are
      scores, and the notice, with the direct-match counts, exactly when
      nothing is shown. */
  lemma RenderFrame(t: Table, query: string, combined: ScoreTable, analysis: QueryAnalysis, topK: int,
                    markup: string -> string, lower: string -> string,
                    compile: string -> Option<string -> bool>)
    requires combined.Valid() && HasTextColumns(t)
    ensures var r := Render(t, query, combined, analysis, topK, markup, lower, compile);
      r.Ok? ==>
        && (r.value.header.None? <==> combined.scores == map[])
        && (r.value.header.Some? ==> r.value.header.value == Header(query, StrategyLineOf(analysis)))
        && (r.value.noResults.Some? <==> r.value.shown == [])
        && (r.value.noResults.Some? ==>
              compile(lower(query)).Some? && NoResultCounts(t, query, lower, compile) == Ok(r.value.noResults.value))
  {
    if combined.keys != [] {
      assert combined.keys[0] in combined.scores;
    } else {
      assert forall k :: k !in combined.scores;
    }
  }

  /** The shown results: at most `top_k` (none for `top_k <= 0`), numbered
      1, 2, ... in descending score order, each a scored row with its own
      fused score and stripped title, no two with the same title. */
  lemma RenderRanked(t: Table, query: string, combined: ScoreTable, analysis: QueryAnalysis, topK: int,
                     markup: string -> string, lower: string -> string,
                     compile: string -> Option<string -> bool>)
    requires combined.Valid() && HasTextColumns(t)
    ensures var r := Render(t, query, combined, analysis, topK, markup, lower, compile);
      r.Ok? ==>
        var shown := r.value.shown;
        && (|shown| <= topK || shown == [])
        && (forall k :: 0 <= k < |shown| ==>
              && shown[k].number == k + 1
              && shown[k].idx in combined.scores && shown[k].score == combined.scores[shown[k].idx]
              && TitleAt(t, shown[k].idx) == Some(shown[k].title))
        && (forall k, l :: 0 <= k < l < |shown| ==>
              shown[k].score >= shown[l].score && shown[k].title != shown[l].title)
  {
    if combined.keys != [] {
      var entries := SortByScore(Items(combined));
      SortSorted(Items(combined));
      ShownForCounted(entries, t, topK, markup);
      ShownForOrdered(entries, t, topK, markup);
      var r := ShownFor(entries, t, topK, markup);
      if r.Ok? {
        forall k | 0 <= k < |r.value|
          ensures r.value[k].idx in combined.scores && r.value[k].score == combined.scores[r.value[k].idx]
        {
          SortedItemsOfTable(combined, Scored(r.value[k].idx, r.value[k].score));
        }
      }
    }
  }

  /** When fewer than `top_k` results are shown, every scored row's title
      is among them: only repeated titles were skipped. */
  lemma RenderComplete(t: Table, query: string, combined: ScoreTable, analysis: QueryAnalysis, topK: int,
                       markup: string -> string, lower: string -> string,
                       compile: string -> Option<string -> bool>)
    requires combined.Valid() && HasTextColumns(t)
    ensures var r := Render(t, query, combined, analysis, topK, markup, lower, compile);
      r.Ok? && |r.value.shown| < topK ==> forall key :: key in combined.scores ==>
        TitleAt(t, key).Some? &&
        exists k :: 0 <= k < |r.value.shown| && r.value.shown[k].title == TitleAt(t, key).value
  {
    if combined.keys != [] {
      var entries := SortByScore(Items(combined));
      ShownForComplete(entries, t, topK, markup);
      forall key | key in combined.scores
        ensures exists q :: 0 <= q < |entries| && entries[q].idx == key
      {
        SortedItemsOfTable(combined, Scored(key, combined.scores[key]));
        var q :| 0 <= q < |entries| && entries[q] == Scored(key, combined.scores[key]);
      }
    }
  }

  /** Every scored row whose fused score is above the last shown result's
      has its title shown: nothing ranked higher is left out except a
      repeated title. */
  lemma RenderLeading(t: Table, query: string, combined: ScoreTable, analysis: QueryAnalysis, topK: int,
                      markup: string -> string, lower: string -> string,
                      compile: string -> Option<string -> bool>)
    requires combined.Valid() && HasTextColumns(t)
    ensures var r := Render(t, query, combined, analysis, topK, markup, lower, compile);
      r.Ok? && r.value.shown != [] ==> forall key ::
        key in combined.scores && combined.scores[key] > r.value.shown[|r.value.shown| - 1].score ==>
          TitleAt(t, key).Some? &&
          exists k :: 0 <= k < |r.value.shown| && r.value.shown[k].title == TitleAt(t, key).value
  {
    if combined.keys != [] {
      var entries := SortByScore(Items(combined));
      SortSorted(Items(combined));
      ShownForLeading(entries, t, topK, markup);
      forall key | key in combined.scores
        ensures exists q :: 0 <= q < |entries| && entries[q] == Scored(key, combined.scores[key])
      {
        SortedItemsOfTable(combined, Scored(key, combined.scores[key]));
      }
    }
  }

  /** A failure is one of two raises. The lookup of a scored row raises
      exactly when the walk over the sorted items reaches an unreadable row
      before the `top_k` cut, and names that row. Otherwise the failure is
      the `re.error` of an invalid lower-cased query, raised whenever the
      notice is printed and only then: for an empty score table, and when
      the walk keeps nothing. */
  lemma RenderFails(t: Table, query: string, combined: ScoreTable, analysis: QueryAnalysis, topK: int,
                    markup: string -> string, lower: string -> string,
                    compile: string -> Option<string -> bool>)
    requires combined.Valid() && HasTextColumns(t)
    ensures var r := Render(t, query, combined, analysis, topK, markup, lower, compile);
      var entries := SortByScore(Items(combined));
      && (r.Err? && r.error.UnreadableRow? <==> exists q :: 0 <= q < |entries| && RaisesAt(entries, t, topK, q))
      && (r.Err? && r.error.UnreadableRow? ==>
            && r.error.idx in combined.scores && TitledRow(t, r.error.idx).None?
            && exists q :: 0 <= q < |entries| && RaisesAt(entries, t, topK, q) && entries[q].idx == r.error.idx)
      && (r.Err? && r.error.BadPattern? ==> r.error.pattern == lower(query) && compile(lower(query)).None?)
      && (r.Err? && r.error.BadPattern? ==> combined.keys == [] || Select(entries, t, topK) == Ok([]))
      && (combined.keys != [] && Select(entries, t, topK).Ok? && Select(entries, t, topK).value != [] ==> r.Ok?)
      && (compile(lower(query)).None? && r.Ok? ==> r.value.shown != [])
      && (combined.keys == [] && compile(lower(query)).None? ==> r == Err(BadPattern(lower(query))))
  {
    var entries := SortByScore(Items(combined));
    SelectFails(entries, t, topK);
    if combined.keys != [] {
      var r := Select(entries, t, topK);
      if r.Err? {
        var q :| 0 <= q < |entries| && RaisesAt(entries, t, topK, q) && entries[q].idx == r.error;
        SortedItemsOfTable(combined, entries[q]);
      }
    } else {
      assert |multiset(entries)| == |multiset(Items(combined))| == 0;
    }
  }

  /** The loop's state: `seen_titles`, `displayed` and what has been shown. */
  datatype Walk = Walk(seen: set<string>, displayed: nat, shown: seq<Shown>)

  class ResultFormatter {
    const df: Table

    constructor (df: Table)
      ensures this.df == df
    {
      this.df := df;
    }

    /** `format_and_display_results`. `markup` is the markup parser's text
        extraction, `lower` is `str.lower` and `compile` is `re.compile`. */
    method FormatAndDisplayResults(query: string, combined: ScoreTable, analysis: QueryAnalysis, topK: int,
                                   markup: string -> string, lower: string -> string,
                                   compile: string -> Option<string -> bool>)
      returns (r: Result<Display, FormatError>)
      requires combined.Valid() && HasTextColumns(df)
      ensures r == Render(df, query, combined, analysis, topK, markup, lower, compile)
    {
      if combined.keys == [] {
        return NoResults(df, query, None, lower, compile);
      }
      var entries := SortByScore(Items(combined));
      var header := Header(query, StrategyLineOf(analysis));
      var shown := ShowResults(entries, topK, markup);
      if shown.Err? {
        return Err(UnreadableRow(shown.error));
      }
      if shown.value == [] {
        r := NoResults(df, query, Some(header), lower, compile);
      } else {
        r := Ok(Display(Some(header), shown.value, None));
      }
    }

    /** The loop of `format_and_display_results` over the sorted entries,
        with the `top_k` cut-off as the loop condition. */
    method ShowResults(entries: seq<Scored>, topK: int, markup: string -> string)
      returns (r: Result<seq<Shown>, int>)
      ensures r == ShownFor(entries, df, topK, markup)
    {
      var walk := Walk({}, 0, []);
      ghost var st := WalkState({}, []);
      var i := 0;
      while i < |entries| && walk.displayed < topK
        invariant 0 <= i <= |entries| && WalkTo(entries, i, df, topK) == Ok(st)
        invariant Mirrors(walk, st, markup)
      {
        var next;
        next, st := ShowEntry(entries, i, topK, markup, walk, st);
        if next.Err? {
          ShownForFails(entries, i + 1, df, topK, markup);
          return Err(next.error);
        }
        walk := next.value;
        i := i + 1;
      }
      ShownForDone(entries, i, df, topK, markup, st, walk.shown);
      return Ok(walk.shown);
    }

    /** One pass of the loop body: look the row up (which raises for an
        unreadable row), skip a title already seen, otherwise record the
        title and show the result with the next number. */
    method ShowEntry(entries: seq<Scored>, i: nat, topK: int, markup: string -> string, walk: Walk, ghost st: WalkState)
      returns (r: Result<Walk, int>, ghost st': WalkState)
      requires i < |entries| && WalkTo(entries, i, df, topK) == Ok(st)
      requires Mirrors(walk, st, markup) && walk.displayed < topK
      ensures r.Err? ==> r.error == entries[i].idx && WalkTo(entries, i + 1, df, topK) == Err(r.error)
      ensures r.Ok? ==> WalkTo(entries, i + 1, df, topK) == Ok(st') && Mirrors(r.value, st', markup)
    {
      assert WalkTo(entries, i + 1, df, topK) == WalkOn(entries, i, df, topK);
      assert WalkOn(entries, i, df, topK) == WalkStep(entries, i, df, topK, st);
      st' := st;
      var picked := st.picked;
      var idx := entries[i].idx;
      var row := ILoc(df, idx);
      if row.None? || "TITLE" !in row.value {
        return Err(idx), st;
      }
      var title := Strip(row.value["TITLE"]);
      if title in walk.seen {
        return Ok(walk), st;
      }
      var p := Pick(i, entries[i], row.value, title);
      var shown := walk.shown + [DisplaySingleResult(p, walk.displayed + 1, markup)];
      r := Ok(Walk(walk.seen + {title}, walk.displayed + 1, shown));
      st' := WalkState(st.seen + {title}, picked + [p]);
    }
  }
}
