/** The hybrid searcher: asks both retrievers for candidates at a depth that
    depends on the query class, fuses their weighted scores into one score
    dictionary, and hands that to the result formatter. Also reports which
    retrievers are available. */
module HybridSearcher {
  import opened Wrappers
  import opened SearchTypes
  import opened QueryAnalyzer
  import opened DataLoader
  import opened KeywordIndex
  import opened SemanticIndex
  import opened ResultFormatter

  // ---------------------------------------------------------------------
  // Retrieval depth and gating
  // ---------------------------------------------------------------------

  /** How many neighbours FAISS is asked for: 30 for short queries, 40
      otherwise. */
  function SemanticDepth(a: QueryAnalysis): nat {
    if a.isShort then 30 else 40
  }

  /** How many keyword candidates are asked for: 30 for short queries, 20
      otherwise. */
  function KeywordDepth(a: QueryAnalysis): nat {
    if a.isShort then 30 else 20
  }

  /** What `_get_semantic_results` returns. `faiss` is FAISS's answer to the
      encoded query for a requested depth (`None` when encoding or the search
      raises). */
  function SemanticResults(ready: bool, a: QueryAnalysis, faiss: nat -> Option<seq<Hit>>): (r: seq<Candidate>)
    ensures !ready ==> r == []
    ensures forall i :: 0 <= i < |r| ==>
      && r[i].kind == Semantic && r[i].idx != -1
      && faiss(if a.isShort then 30 else 40).Some?
      && Hit(r[i].idx, r[i].score) in faiss(if a.isShort then 30 else 40).value
  {
    if !ready then []
    else
      match faiss(SemanticDepth(a))
      case None => []
      case Some(hits) => Found(hits)
  }

  /** FAISS answers a depth-`d` query with `d` columns, so there are at most
      30 semantic candidates for a short query and 40 for a long one. */
  lemma SemanticResultsBounded(ready: bool, a: QueryAnalysis, faiss: nat -> Option<seq<Hit>>)
    requires forall d: nat :: faiss(d).Some? ==> |faiss(d).value| == d
    ensures |SemanticResults(ready, a, faiss)| <= if a.isShort then 30 else 40
  {
    var d := SemanticDepth(a);
    if ready && faiss(d).Some? {
      assert |faiss(d).value| == d;
    }
  }

  /** What `_get_keyword_results` returns. `similarities` is the similarity
      vector of the query (`None` when computing it raises) and `order` its
      argsort. */
  function KeywordResults(ready: bool, vocabulary: bool, a: QueryAnalysis,
                          similarities: Option<seq<real>>, order: seq<int>): (r: seq<Candidate>)
    requires similarities.Some? ==> IsArgsort(order, similarities.value)
  {
    if ready && vocabulary && similarities.Some? then TopPositive(similarities.value, order, KeywordDepth(a))
    else []
  }

  /** No keyword candidates from an index that is not ready; otherwise at
      most 30 (short query) or 20 (long query) candidates, best first, each
      a valid row with a positive similarity. */
  lemma KeywordResultsShape(ready: bool, vocabulary: bool, a: QueryAnalysis,
                            similarities: Option<seq<real>>, order: seq<int>)
    requires similarities.Some? ==> IsArgsort(order, similarities.value)
    ensures var r := KeywordResults(ready, vocabulary, a, similarities, order);
      && (!ready ==> r == [])
      && |r| <= (if a.isShort then 30 else 20)
      && Descending(r)
      && forall i :: 0 <= i < |r| ==>
           && similarities.Some? && 0 <= r[i].idx < |similarities.value|
           && r[i].score == similarities.value[r[i].idx] > 0.0 && r[i].kind == Keyword
  {
    if ready && vocabulary && similarities.Some? {
      TopPositiveBounded(similarities.value, order, KeywordDepth(a));
      TopPositiveDescending(similarities.value, order, KeywordDepth(a));
    }
  }

  // ---------------------------------------------------------------------
  // Fusion
  // ---------------------------------------------------------------------

  /** The empty dictionary `{}`. */
  const NoScores := ScoreTable([], map[])

  /** `score * weight`, named so that the product is only expanded where
      the arithmetic is needed. */
  function Times(score: real, weight: real): real {
    score * weight
  }

  /** `d.get(idx, 0)`. */
  function Get(t: ScoreTable, idx: int): real {
    if idx in t.scores then t.scores[idx] else 0.0
  }

  /** `d[idx] = v`: a new key goes to the end, an existing key keeps its
      place. */
  function Put(t: ScoreTable, idx: int, v: real): ScoreTable {
    ScoreTable(if idx in t.scores then t.keys else t.keys + [idx], t.scores[idx := v])
  }

  /** The body of either loop of `_combine_results`: the candidate's score
      times the weight `w`, added to its row's entry. */
  function AddHit(t: ScoreTable, c: Candidate, w: real): ScoreTable {
    Put(t, c.idx, Get(t, c.idx) + Times(c.score, w))
  }

  /** One loop of `_combine_results`: every candidate added in turn. */
  function Accumulate(t: ScoreTable, cs: seq<Candidate>, w: real): ScoreTable {
    if cs == [] then t else AddHit(Accumulate(t, cs[..|cs| - 1], w), cs[|cs| - 1], w)
  }

  /** `_combine_results`: the semantic candidates, then the keyword ones. */
  function Fused(semantic: seq<Candidate>, keyword: seq<Candidate>, a: QueryAnalysis): (r: ScoreTable)
    ensures r.Valid()
  {
    var first := Accumulate(NoScores, semantic, a.semanticWeight);
    AccumulateValid(NoScores, semantic, a.semanticWeight);
    AccumulateValid(first, keyword, a.keywordWeight);
    Accumulate(first, keyword, a.keywordWeight)
  }

  /** Storing a value keeps the dictionary well formed: each key once, and
      exactly the keys of the map. */
  lemma PutValid(t: ScoreTable, idx: int, v: real)
    requires t.Valid()
    ensures Put(t, idx, v).Valid()
  {
  }

  /** An accumulation loop keeps the dictionary well formed. */
  lemma {:induction false} AccumulateValid(t: ScoreTable, cs: seq<Candidate>, w: real)
    requires t.Valid()
    ensures Accumulate(t, cs, w).Valid()
  {
    if cs != [] {
      var s := Accumulate(t, cs[..|cs| - 1], w);
      AccumulateValid(t, cs[..|cs| - 1], w);
      var c := cs[|cs| - 1];
      PutValid(s, c.idx, Get(s, c.idx) + Times(c.score, w));
    }
  }

  /** Reference definition: the total score the candidates give row `idx`. */
  function SumFor(cs: seq<Candidate>, idx: int): real {
    if cs == [] then 0.0
    else SumFor(cs[..|cs| - 1], idx) + if cs[|cs| - 1].idx == idx then cs[|cs| - 1].score else 0.0
  }

  /** A row no candidate mentions gets nothing. */
  lemma {:induction false} SumForAbsent(cs: seq<Candidate>, idx: int)
    requires !Mentions(cs, idx)
    ensures SumFor(cs, idx) == 0.0
  {
    if cs != [] {
      MentionsSnoc(cs, idx);
      SumForAbsent(cs[..|cs| - 1], idx);
    }
  }

  /** The candidates mention `idx` iff the ones before the last do or the
      last one is on row `idx`. */
  lemma MentionsSnoc(cs: seq<Candidate>, idx: int)
    requires cs != []
    ensures Mentions(cs, idx) <==> Mentions(cs[..|cs| - 1], idx) || cs[|cs| - 1].idx == idx
  {
    var front := cs[..|cs| - 1];
    if Mentions(cs, idx) && cs[|cs| - 1].idx != idx {
      var i :| 0 <= i < |cs| && cs[i].idx == idx;
      assert front[i].idx == idx;
    }
    if Mentions(front, idx) {
      var i :| 0 <= i < |front| && front[i].idx == idx;
      assert cs[i].idx == idx;
    }
  }

  /** One accumulation loop: the keys afterwards are the keys before and the
      candidates' rows. */
  lemma {:induction false} AccumulateKeys(t: ScoreTable, cs: seq<Candidate>, w: real, idx: int)
    ensures idx in Accumulate(t, cs, w).scores <==> idx in t.scores || Mentions(cs, idx)
  {
    if cs != [] {
      AccumulateKeys(t, cs[..|cs| - 1], w, idx);
      MentionsSnoc(cs, idx);
    }
  }

  lemma Distribute(w: real, a: real, x: real)
    ensures Times(a + x, w) == Times(a, w) + Times(x, w)
  {
  }

  /** One accumulation loop: every row's entry grows by `w` times its
      candidates' total score. */
  lemma {:induction false} AccumulateScore(t: ScoreTable, cs: seq<Candidate>, w: real, idx: int)
    ensures Get(Accumulate(t, cs, w), idx) == Get(t, idx) + Times(SumFor(cs, idx), w)
  {
    if cs != [] {
      var front := cs[..|cs| - 1];
      var c := cs[|cs| - 1];
      AccumulateScore(t, front, w, idx);
      var x := if c.idx == idx then c.score else 0.0;
      assert SumFor(cs, idx) == SumFor(front, idx) + x;
      assert Get(Accumulate(t, cs, w), idx) == Get(Accumulate(t, front, w), idx) + Times(x, w);
      Distribute(w, SumFor(front, idx), x);
    }
  }

  /** One accumulation loop keeps the keys it started with, in place, and
      adds new ones after them. */
  lemma {:induction false} AccumulateKeepsOrder(t: ScoreTable, cs: seq<Candidate>, w: real)
    ensures var r := Accumulate(t, cs, w);
      |t.keys| <= |r.keys| && r.keys[..|t.keys|] == t.keys
  {
    if cs != [] {
      AccumulateKeepsOrder(t, cs[..|cs| - 1], w);
    }
  }

  /** The fused dictionary has exactly the rows either retriever returned;
      two empty lists give an empty dictionary. */
  lemma FusedKeys(semantic: seq<Candidate>, keyword: seq<Candidate>, a: QueryAnalysis, idx: int)
    ensures var r := Fused(semantic, keyword, a);
      idx in r.scores <==> Mentions(semantic, idx) || Mentions(keyword, idx)
    ensures semantic == [] && keyword == [] ==> Fused(semantic, keyword, a).keys == []
  {
    AccumulateKeys(NoScores, semantic, a.semanticWeight, idx);
    AccumulateKeys(Accumulate(NoScores, semantic, a.semanticWeight), keyword, a.keywordWeight, idx);
  }

  /** Each row's fused score is the semantic weight times its semantic scores
      plus the keyword weight times its keyword scores. */
  lemma FusedScore(semantic: seq<Candidate>, keyword: seq<Candidate>, a: QueryAnalysis, idx: int)
    ensures Get(Fused(semantic, keyword, a), idx)
         == Times(SumFor(semantic, idx), a.semanticWeight) + Times(SumFor(keyword, idx), a.keywordWeight)
  {
    var first := Accumulate(NoScores, semantic, a.semanticWeight);
    AccumulateScore(NoScores, semantic, a.semanticWeight, idx);
    AccumulateScore(first, keyword, a.keywordWeight, idx);
    assert Get(NoScores, idx) == 0.0;
  }

  /** A row only one retriever returned gets only that retriever's weighted
      term. */
  lemma FusedSingleSource(semantic: seq<Candidate>, keyword: seq<Candidate>, a: QueryAnalysis, idx: int)
    ensures var r := Fused(semantic, keyword, a);
      Mentions(semantic, idx) && !Mentions(keyword, idx) ==>
        idx in r.scores && r.scores[idx] == Times(SumFor(semantic, idx), a.semanticWeight)
    ensures var r := Fused(semantic, keyword, a);
      !Mentions(semantic, idx) && Mentions(keyword, idx) ==>
        idx in r.scores && r.scores[idx] == Times(SumFor(keyword, idx), a.keywordWeight)
  {
    FusedKeys(semantic, keyword, a, idx);
    FusedScore(semantic, keyword, a, idx);
    if !Mentions(keyword, idx) {
      SumForAbsent(keyword, idx);
    }
    if !Mentions(semantic, idx) {
      SumForAbsent(semantic, idx);
    }
  }

  /** Rows the semantic retriever returned come first in the dictionary, so
      they win ties in the later stable sort. */
  lemma FusedSemanticFirst(semantic: seq<Candidate>, keyword: seq<Candidate>, a: QueryAnalysis)
    ensures var first := Accumulate(NoScores, semantic, a.semanticWeight);
      var r := Fused(semantic, keyword, a);
      |first.keys| <= |r.keys| && r.keys[..|first.keys|] == first.keys
      && forall i :: 0 <= i < |first.keys| ==> Mentions(semantic, first.keys[i])
  {
    var first := Accumulate(NoScores, semantic, a.semanticWeight);
    AccumulateKeepsOrder(first, keyword, a.keywordWeight);
    forall i | 0 <= i < |first.keys|
      ensures Mentions(semantic, first.keys[i])
    {
      AccumulateKeys(NoScores, semantic, a.semanticWeight, first.keys[i]);
    }
  }

  // ---------------------------------------------------------------------
  // Capabilities
  // ---------------------------------------------------------------------

  /** The `'mode'` entry: 'hybrid', 'keyword_only' or 'none'. */
  datatype Mode = Hybrid | KeywordOnly | NoSearch {
    function Name(): string {
      match this
      case Hybrid => "hybrid"
      case KeywordOnly => "keyword_only"
      case NoSearch => "none"
    }
  }

  /** The dictionary `get_search_capabilities` returns. */
  datatype Capabilities = Capabilities(semanticAvailable: bool, keywordAvailable: bool, hybridMode: bool, mode: Mode)

  /** The capability table for the two readiness flags. Semantic search on
      its own is reported as mode 'none'. */
  function CapabilitiesFor(semanticReady: bool, keywordReady: bool): (c: Capabilities)
    ensures c.semanticAvailable == semanticReady && c.keywordAvailable == keywordReady
    ensures c.hybridMode <==> semanticReady && keywordReady
    ensures c.mode == Hybrid <==> c.hybridMode
    ensures c.mode == KeywordOnly <==> keywordReady && !semanticReady
    ensures c.mode == NoSearch <==> !keywordReady
  {
    var hybrid := semanticReady && keywordReady;
    Capabilities(semanticReady, keywordReady, hybrid,
                 if hybrid then Hybrid else if keywordReady then KeywordOnly else NoSearch)
  }

  class HybridSearcher {
    const semantic: SemanticIndex
    const keyword: KeywordIndex
    const formatter: ResultFormatter

    /** The query analyzer holds no state; its functions are called
        directly. */
    constructor (semantic: SemanticIndex, keyword: KeywordIndex,
                 formatter: ResultFormatter)
      ensures this.semantic == semantic && this.keyword == keyword && this.formatter == formatter
    {
      this.semantic := semantic;
      this.keyword := keyword;
      this.formatter := formatter;
    }

    /** `search`: one analysis of the query, used by both retrievals, the
        fusion and the formatter. An `Err` is what the formatter raises: an
        unreadable row, or the `re.error` of an invalid query pattern. */
    method Search(query: string, topK: int, alnum: char -> bool, markup: string -> string, lower: string -> string,
                  compile: string -> Option<string -> bool>,
                  faiss: nat -> Option<seq<Hit>>, similarities: Option<seq<real>>, order: seq<int>)
      returns (r: Result<Display, FormatError>)
      requires similarities.Some? ==> IsArgsort(order, similarities.value)
      requires HasTextColumns(formatter.df)
      ensures var a := AnalyzeQuery(query, alnum);
        var combined := Fused(SemanticResults(semantic.IsReady(), a, faiss),
                              KeywordResults(keyword.IsReady(), keyword.HasVocabulary(), a, similarities, order), a);
        r == Render(formatter.df, query, combined, a, topK, markup, lower, compile)
    {
      var analysis := AnalyzeQuery(query, alnum);
      var semanticResults := GetSemanticResults(analysis, faiss);
      var keywordResults := GetKeywordResults(analysis, similarities, order);
      var combined := CombineResults(semanticResults, keywordResults, analysis);
      r := formatter.FormatAndDisplayResults(query, combined, analysis, topK, markup, lower, compile);
    }

    /** `_get_semantic_results`. */
    method GetSemanticResults(analysis: QueryAnalysis, faiss: nat -> Option<seq<Hit>>) returns (results: seq<Candidate>)
      ensures results == SemanticResults(semantic.IsReady(), analysis, faiss)
    {
      if !semantic.IsReady() {
        return [];
      }
      var resultCount := if analysis.isShort then 30 else 40;
      results := semantic.Search(faiss(resultCount));
    }

    /** `_get_keyword_results`. */
    method GetKeywordResults(analysis: QueryAnalysis, similarities: Option<seq<real>>, order: seq<int>)
      returns (results: seq<Candidate>)
      requires similarities.Some? ==> IsArgsort(order, similarities.value)
      ensures results == KeywordResults(keyword.IsReady(), keyword.HasVocabulary(), analysis, similarities, order)
    {
      if !keyword.IsReady() {
        return [];
      }
      var resultCount := if analysis.isShort then 30 else 20;
      results := keyword.Search(resultCount, similarities, order);
    }

    /** `_combine_results`: the two accumulation loops over a dictionary
        built in place. */
    method CombineResults(semanticResults: seq<Candidate>, keywordResults: seq<Candidate>, analysis: QueryAnalysis)
      returns (combined: ScoreTable)
      ensures combined == Fused(semanticResults, keywordResults, analysis)
    {
      combined := ScoreTable([], map[]);
      var semanticWeight := analysis.semanticWeight;
      var keywordWeight := analysis.keywordWeight;
      for i := 0 to |semanticResults|
        invariant combined == Accumulate(NoScores, semanticResults[..i], semanticWeight)
      {
        assert semanticResults[..i + 1][..i] == semanticResults[..i];
        combined := AddHit(combined, semanticResults[i], semanticWeight);
      }
      assert semanticResults[..|semanticResults|] == semanticResults;
      ghost var afterSemantic := combined;
      for i := 0 to |keywordResults|
        invariant combined == Accumulate(afterSemantic, keywordResults[..i], keywordWeight)
      {
        assert keywordResults[..i + 1][..i] == keywordResults[..i];
        combined := AddHit(combined, keywordResults[i], keywordWeight);
      }
      assert keywordResults[..|keywordResults|] == keywordResults;
    }

    /** `get_search_capabilities`. */
    function GetSearchCapabilities(): (c: Capabilities)
      reads semantic, keyword
      ensures c == CapabilitiesFor(semantic.IsReady(), keyword.IsReady())
    {
      CapabilitiesFor(semantic.IsReady(), keyword.IsReady())
    }
  }
}
