/** Query classification: whether a query looks like a short exact token
    (a ticker symbol, an acronym) and which fusion weights and strategy label
    that choice carries. Pure functions of the query text. */
module QueryAnalyzer {
  import opened Strings

  /** The default `max_length` of `is_short_query`; no caller overrides it. */
  const MaxShortLength := 6

  /** Python's `str.isalnum()` on a whole string: non-empty and every
      character alphanumeric. Which characters are alphanumeric is Unicode's
      table, given here as the parameter `alnum`. */
  predicate IsAlnumText(s: string, alnum: char -> bool) {
    |s| > 0 && forall i :: 0 <= i < |s| ==> alnum(s[i])
  }

  /** `is_short_query`: the stripped query has at most six characters and all
      of them are alphanumeric. */
  predicate IsShortQuery(query: string, alnum: char -> bool) {
    var q := Strip(query);
    |q| <= MaxShortLength && IsAlnumText(q, alnum)
  }

  datatype SearchWeights = SearchWeights(semanticWeight: real, keywordWeight: real, strategy: string)

  /** The weight table. The labels are the other way round from the numbers
      (short queries lean on semantic similarity but are labelled
      "keyword-focused"); that is the system's observable behaviour. */
  const ShortQueryWeights := SearchWeights(0.9, 0.1, "keyword-focused")
  const LongQueryWeights := SearchWeights(0.3, 0.7, "semantic-focused")

  /** `get_search_weights`. */
  function GetSearchWeights(query: string, alnum: char -> bool): (w: SearchWeights)
    ensures 0.0 < w.semanticWeight <= 1.0 && 0.0 <= w.keywordWeight <= 1.0
    ensures w.strategy == "keyword-focused" <==> IsShortQuery(query, alnum)
    ensures w.strategy == "semantic-focused" <==> !IsShortQuery(query, alnum)
    ensures w.semanticWeight > w.keywordWeight <==> IsShortQuery(query, alnum)
    ensures w.semanticWeight + w.keywordWeight == 1.0
  {
    if IsShortQuery(query, alnum) then ShortQueryWeights else LongQueryWeights
  }

  /** The record `analyze_query` returns. */
  datatype QueryAnalysis = QueryAnalysis(
    query: string,
    isShort: bool,
    length: nat,
    semanticWeight: real,
    keywordWeight: real,
    strategy: string)

  /** `analyze_query`: the stripped query, its length, its class, and the
      weights and label of that class. */
  function AnalyzeQuery(query: string, alnum: char -> bool): (a: QueryAnalysis)
    ensures a.query == Strip(query) && a.length == |a.query|
    ensures a.isShort <==> 1 <= a.length <= 6 && forall i :: 0 <= i < a.length ==> alnum(a.query[i])
    ensures a.isShort == IsShortQuery(query, alnum)
    ensures SearchWeights(a.semanticWeight, a.keywordWeight, a.strategy)
         == if a.isShort then ShortQueryWeights else LongQueryWeights
    ensures 0.0 < a.semanticWeight <= 1.0 && 0.0 <= a.keywordWeight <= 1.0
  {
    var weights := GetSearchWeights(query, alnum);
    var isShort := IsShortQuery(query, alnum);
    QueryAnalysis(Strip(query), isShort, |Strip(query)|,
                  weights.semanticWeight, weights.keywordWeight, weights.strategy)
  }

  /** The length threshold is inclusive: six alphanumeric characters make
      a short query... */
  lemma SixCharactersAreShort(alnum: char -> bool)
    requires forall c :: 'A' <= c <= 'F' ==> alnum(c)
    ensures IsShortQuery("ABCDEF", alnum)
  {
    StripUnpadded("ABCDEF");
  }

  /** ...and seven make a long one, alphanumeric or not. */
  lemma SevenCharactersAreLong(alnum: char -> bool)
    ensures !IsShortQuery("ABCDEFG", alnum)
  {
    StripUnpadded("ABCDEFG");
  }

  /** A four-letter ticker such as "COMI" is short and gets the 0.9 / 0.1
      weights under the "keyword-focused" label. */
  lemma TickerIsShort(alnum: char -> bool)
    requires forall c :: 'A' <= c <= 'Z' ==> alnum(c)
    ensures var a := AnalyzeQuery("COMI", alnum);
      a.isShort && a.semanticWeight == 0.9 && a.keywordWeight == 0.1 && a.strategy == "keyword-focused"
  {
    StripUnpadded("COMI");
  }

  /** The empty query and a whitespace-only query are never short, because
      `"".isalnum()` is false. */
  lemma BlankQueryIsLong(query: string, alnum: char -> bool)
    requires AllSpace(query)
    ensures !IsShortQuery(query, alnum)
    ensures AnalyzeQuery(query, alnum).query == [] && AnalyzeQuery(query, alnum).length == 0
  {
    StripBlank(query);
  }

  /** Whitespace inside the stripped query makes it long, whatever its length,
      since no whitespace character is alphanumeric. */
  lemma InnerSpaceIsLong(query: string, alnum: char -> bool, i: nat)
    requires forall c :: IsSpace(c) ==> !alnum(c)
    requires i < |Strip(query)| && IsSpace(Strip(query)[i])
    ensures !IsShortQuery(query, alnum)
  {
  }

  /** Leading and trailing whitespace changes nothing in the analysis: not the
      class, not the weights, not the label, not the reported query. */
  lemma PaddingIsIgnored(pre: string, query: string, post: string, alnum: char -> bool)
    requires AllSpace(pre) && AllSpace(post)
    ensures AnalyzeQuery(pre + query + post, alnum) == AnalyzeQuery(query, alnum)
  {
    StripPadded(pre, query, post);
  }
}
