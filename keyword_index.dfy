/** The TF-IDF keyword retriever: its readiness, the load-else-build
    decision over its two cache files, and the post-processing of a
    similarity vector into keyword candidates. The vectorizer's fit and
    transform and the sparse matrix product are library code; their results
    enter as parameters. */
module KeywordIndex {
  import opened Wrappers
  import opened SearchTypes

  /** The fitted state of a `TfidfVectorizer` that matters here: its
      `vocabulary_` attribute, `None` while the vectorizer is unfitted. */
  datatype Vectorizer = Vectorizer(vocabulary: Option<map<string, nat>>)

  /** A TF-IDF matrix, one row per indexed document. */
  datatype SparseMatrix = SparseMatrix(rows: nat)

  /** What `fit_transform(texts)` produces when it does not raise. */
  datatype Fit = Fit(vocabulary: map<string, nat>, matrix: SparseMatrix)

  /** `order` is what `similarities.argsort()` returns: every position
      exactly once, arranged by non-decreasing similarity. Ties may come in
      any order, as numpy's default sort is not stable. */
  predicate IsArgsort(order: seq<int>, sims: seq<real>) {
    && Positions(order, sims)
    && (forall i, j :: 0 <= i < j < |order| ==> order[i] != order[j])
    && (forall j :: 0 <= j < |sims| ==> j in order)
    && Ascending(order, sims)
  }

  /** `order` has one valid row position per similarity. */
  predicate Positions(order: seq<int>, sims: seq<real>) {
    |order| == |sims| && forall i :: 0 <= i < |order| ==> 0 <= order[i] < |sims|
  }

  /** The similarities along `order` never decrease. */
  predicate Ascending(order: seq<int>, sims: seq<real>)
    requires Positions(order, sims)
  {
    forall i, j :: 0 <= i < j < |order| ==> sims[order[i]] <= sims[order[j]]
  }

  /** Python's `a[-k:]`: the last `k` elements when `k` is positive, all of
      `a` when `k` is 0 (since `-0 == 0`), and the elements from position
      `-k` on when `k` is negative. Always a suffix of `a`. */
  function TailSlice(a: seq<int>, k: int): (r: seq<int>)
    ensures |r| <= |a| && r == a[|a| - |r|..]
    ensures k > 0 ==> |r| == if k < |a| then k else |a|
    ensures k == 0 ==> r == a
  {
    if k > 0 then (if k < |a| then a[|a| - k..] else a)
    else if k == 0 then a
    else if -k < |a| then a[-k..] else []
  }

  /** The loop over `top_indices`: each position whose similarity is
      positive, in the order visited, tagged 'keyword'. */
  function Positives(sims: seq<real>, ids: seq<int>): (r: seq<Candidate>)
    requires forall i :: 0 <= i < |ids| ==> 0 <= ids[i] < |sims|
    ensures |r| <= |ids|
    ensures forall i :: 0 <= i < |r| ==>
      && 0 <= r[i].idx < |sims| && r[i].idx in ids
      && r[i].score == sims[r[i].idx] && r[i].score > 0.0 && r[i].kind == Keyword
  {
    if ids == [] then []
    else
      var j := ids[|ids| - 1];
      Positives(sims, ids[..|ids| - 1]) + if sims[j] > 0.0 then [Candidate(j, sims[j], Keyword)] else []
  }

  /** The positions `search` visits: the argsort's last `topK` entries,
      highest similarity first. */
  function TopIndices(order: seq<int>, topK: int): seq<int> {
    Reverse(TailSlice(order, topK))
  }

  /** The candidates `search` returns for a similarity vector. */
  function TopPositive(sims: seq<real>, order: seq<int>, topK: int): seq<Candidate>
    requires IsArgsort(order, sims)
  {
    Positives(sims, TopIndices(order, topK))
  }

  lemma TopIndicesInRange(sims: seq<real>, order: seq<int>, topK: int)
    requires IsArgsort(order, sims)
    ensures var top := TopIndices(order, topK);
      forall i :: 0 <= i < |top| ==> 0 <= top[i] < |sims|
  {
    var tail := TailSlice(order, topK);
    forall i | 0 <= i < |tail|
      ensures 0 <= tail[i] < |sims|
    {
      assert tail[i] == order[|order| - |tail| + i];
    }
  }

  /** With a positive `topK`, at most `topK` candidates come back, each with
      a positive similarity, the 'keyword' tag and a valid row position. */
  lemma TopPositiveBounded(sims: seq<real>, order: seq<int>, topK: int)
    requires IsArgsort(order, sims) && topK >= 1
    ensures var r := TopPositive(sims, order, topK);
      && |r| <= topK
      && forall i :: 0 <= i < |r| ==>
           0 <= r[i].idx < |sims| && r[i].score == sims[r[i].idx] > 0.0 && r[i].kind == Keyword
  {
  }

  lemma {:induction false} PositivesDescending(sims: seq<real>, ids: seq<int>)
    requires forall i :: 0 <= i < |ids| ==> 0 <= ids[i] < |sims|
    requires forall i, j :: 0 <= i < j < |ids| ==> sims[ids[i]] >= sims[ids[j]]
    ensures Descending(Positives(sims, ids))
  {
    if ids != [] {
      var init := ids[..|ids| - 1];
      PositivesDescending(sims, init);
      var j := ids[|ids| - 1];
      var r := Positives(sims, ids);
      var p := Positives(sims, init);
      if sims[j] > 0.0 {
        forall a, b | 0 <= a < b < |r|
          ensures r[a].score >= r[b].score
        {
          if b == |r| - 1 {
            var k :| 0 <= k < |init| && init[k] == r[a].idx;
            assert sims[ids[k]] >= sims[ids[|ids| - 1]];
          }
        }
      }
    }
  }

  /** The candidates come highest similarity first. */
  lemma TopPositiveDescending(sims: seq<real>, order: seq<int>, topK: int)
    requires IsArgsort(order, sims)
    ensures Descending(TopPositive(sims, order, topK))
  {
    TopIndicesInRange(sims, order, topK);
    var tail := TailSlice(order, topK);
    var top := TopIndices(order, topK);
    forall i, j | 0 <= i < j < |top|
      ensures sims[top[i]] >= sims[top[j]]
    {
      assert top[i] == order[|order| - |tail| + (|tail| - 1 - i)];
      assert top[j] == order[|order| - |tail| + (|tail| - 1 - j)];
    }
    PositivesDescending(sims, top);
  }

  lemma {:induction false} PositivesComplete(sims: seq<real>, ids: seq<int>, k: int)
    requires forall i :: 0 <= i < |ids| ==> 0 <= ids[i] < |sims|
    requires 0 <= k < |ids| && sims[ids[k]] > 0.0
    ensures Mentions(Positives(sims, ids), ids[k])
  {
    var init := ids[..|ids| - 1];
    var r := Positives(sims, ids);
    if k == |ids| - 1 {
      assert r[|r| - 1].idx == ids[k];
    } else {
      PositivesComplete(sims, init, k);
      var i :| 0 <= i < |Positives(sims, init)| && Positives(sims, init)[i].idx == init[k];
      assert r[i].idx == ids[k];
    }
  }

  /** Top-k optimality: a row scoring higher than some returned candidate is
      itself returned. Whatever `topK` is, the visited positions are a suffix
      of the argsort, so nothing outside them outscores anything inside. */
  lemma TopPositiveOptimal(sims: seq<real>, order: seq<int>, topK: int)
    requires IsArgsort(order, sims)
    ensures var r := TopPositive(sims, order, topK);
      forall i, j :: 0 <= i < |r| && 0 <= j < |sims| && sims[j] > r[i].score ==> Mentions(r, j)
  {
    var r := TopPositive(sims, order, topK);
    forall i, j | 0 <= i < |r| && 0 <= j < |sims| && sims[j] > r[i].score
      ensures Mentions(r, j)
    {
      OutscoredIsReturned(sims, order, topK, r[i], j);
    }
  }

  /** The lower bound: with a positive `topK`, every row among the last
      min(`topK`, n) positions of the argsort whose similarity is positive
      is returned, so nothing is lost but non-positive rows. */
  lemma TopPositiveComplete(sims: seq<real>, order: seq<int>, topK: int)
    requires IsArgsort(order, sims) && topK >= 1
    ensures var n := if topK < |order| then topK else |order|;
      forall p :: |order| - n <= p < |order| && sims[order[p]] > 0.0 ==> Mentions(TopPositive(sims, order, topK), order[p])
  {
    var top := TopIndices(order, topK);
    TopIndicesAt(order, topK);
    TopIndicesInRange(sims, order, topK);
    assert |top| == |TailSlice(order, topK)|;
    forall p | |order| - |top| <= p < |order| && sims[order[p]] > 0.0
      ensures Mentions(Positives(sims, top), order[p])
    {
      VisitedPositive(sims, order, top, p);
    }
  }

  /** A positive row at one of the argsort positions `top` covers is
      returned. */
  lemma VisitedPositive(sims: seq<real>, order: seq<int>, top: seq<int>, p: int)
    requires forall i :: 0 <= i < |top| ==> 0 <= top[i] < |sims|
    requires EndOf(top, order)
    requires |order| - |top| <= p < |order| && 0 <= order[p] < |sims| && sims[order[p]] > 0.0
    ensures Mentions(Positives(sims, top), order[p])
  {
    var k := |order| - 1 - p;
    assert top[k] == order[p];
    PositivesComplete(sims, top, k);
  }

  /** The same for one returned candidate `c` and one row `j`. */
  lemma OutscoredIsReturned(sims: seq<real>, order: seq<int>, topK: int, c: Candidate, j: int)
    requires IsArgsort(order, sims)
    requires c in TopPositive(sims, order, topK)
    requires 0 <= j < |sims| && sims[j] > c.score
    ensures Mentions(TopPositive(sims, order, topK), j)
  {
    TopIndicesAt(order, topK);
    var top := TopIndices(order, topK);
    var pj := PositionInArgsort(sims, order, j);
    var k := OutscoringIsVisited(sims, order, top, c, pj);
    VisitedOptimal(sims, order, top, c, k);
  }

  /** A row outscoring a returned candidate is among the visited ones. */
  lemma OutscoringIsVisited(sims: seq<real>, order: seq<int>, top: seq<int>, c: Candidate, pj: int) returns (k: int)
    requires Positions(order, sims) && Ascending(order, sims) && EndOf(top, order)
    requires c in Positives(sims, top)
    requires 0 <= pj < |order| && sims[order[pj]] > c.score
    ensures 0 <= k < |top| && top[k] == order[pj]
  {
    var qc := CandidateInArgsort(sims, order, top, c);
    ArgsortSuffixDominates(sims, order, |order| - |top|, pj, qc);
    k := |order| - 1 - pj;
  }

  /** A visited row outscoring a returned candidate is returned too. */
  lemma VisitedOptimal(sims: seq<real>, order: seq<int>, top: seq<int>, c: Candidate, k: int)
    requires Positions(order, sims) && EndOf(top, order)
    requires c in Positives(sims, top)
    requires 0 <= k < |top| && sims[top[k]] > c.score
    ensures Mentions(Positives(sims, top), top[k])
  {
    PositivesPositive(sims, top, c);
    PositivesComplete(sims, top, k);
  }

  lemma PositivesPositive(sims: seq<real>, ids: seq<int>, c: Candidate)
    requires forall i :: 0 <= i < |ids| ==> 0 <= ids[i] < |sims|
    requires c in Positives(sims, ids)
    ensures c.score > 0.0
  {
  }

  /** A returned candidate sits among the argsort's last `|top|` positions. */
  lemma CandidateInArgsort(sims: seq<real>, order: seq<int>, top: seq<int>, c: Candidate) returns (q: int)
    requires forall i :: 0 <= i < |top| ==> 0 <= top[i] < |sims|
    requires EndOf(top, order)
    requires c in Positives(sims, top)
    ensures |order| - |top| <= q < |order| && order[q] == c.idx && c.score == sims[c.idx]
  {
    var pc := PositionOfCandidate(sims, top, c);
    q := |order| - 1 - pc;
    assert top[pc] == order[q];
  }

  /** A returned candidate comes from a visited position and carries that
      position's similarity. */
  lemma PositionOfCandidate(sims: seq<real>, ids: seq<int>, c: Candidate) returns (p: int)
    requires forall i :: 0 <= i < |ids| ==> 0 <= ids[i] < |sims|
    requires c in Positives(sims, ids)
    ensures 0 <= p < |ids| && ids[p] == c.idx && c.score == sims[c.idx]
  {
    var r := Positives(sims, ids);
    var ic :| 0 <= ic < |r| && r[ic] == c;
    assert c.idx in ids;
    p :| 0 <= p < |ids| && ids[p] == c.idx;
  }

  /** Every row appears in the argsort. */
  lemma PositionInArgsort(sims: seq<real>, order: seq<int>, j: int) returns (p: int)
    requires IsArgsort(order, sims) && 0 <= j < |sims|
    ensures 0 <= p < |order| && order[p] == j
  {
    assert j in order;
    p :| 0 <= p < |order| && order[p] == j;
  }

  /** `top` lists the last `|top|` entries of `order`, last first. */
  predicate EndOf(top: seq<int>, order: seq<int>) {
    |top| <= |order| && forall k :: 0 <= k < |top| ==> top[k] == order[|order| - 1 - k]
  }

  /** The k-th visited position is the k-th last of the argsort. */
  lemma TopIndicesAt(order: seq<int>, topK: int)
    ensures EndOf(TopIndices(order, topK), order)
  {
    var tail := TailSlice(order, topK);
    assert TopIndices(order, topK) == Reverse(tail);
  }

  /** A position before `start` in the argsort never outscores one at or
      after it. */
  lemma ArgsortSuffixDominates(sims: seq<real>, order: seq<int>, start: int, p: int, q: int)
    requires Positions(order, sims) && Ascending(order, sims)
    requires 0 <= p < |order| && 0 <= start <= q < |order|
    requires sims[order[p]] > sims[order[q]]
    ensures start <= p
  {
  }

  /** With `topK == 0`, `[-0:]` keeps the whole argsort, so every row with a
      positive similarity is returned. */
  lemma ZeroTopKReturnsAllPositives(sims: seq<real>, order: seq<int>, j: int)
    requires IsArgsort(order, sims)
    requires 0 <= j < |sims| && sims[j] > 0.0
    ensures Mentions(TopPositive(sims, order, 0), j)
  {
    TopIndicesInRange(sims, order, 0);
    var top := TopIndices(order, 0);
    assert j in order;
    var pj :| 0 <= pj < |order| && order[pj] == j;
    assert top[|order| - 1 - pj] == j;
    PositivesComplete(sims, top, |order| - 1 - pj);
  }

  /** The loop of `search` over `top_indices`, appending each position with
      a positive similarity. */
  method CollectPositives(sims: seq<real>, top: seq<int>) returns (results: seq<Candidate>)
    requires forall i :: 0 <= i < |top| ==> 0 <= top[i] < |sims|
    ensures results == Positives(sims, top)
  {
    results := [];
    var i := 0;
    while i < |top|
      invariant 0 <= i <= |top|
      invariant results == Positives(sims, top[..i])
    {
      var idx := top[i];
      assert top[..i + 1][..i] == top[..i];
      if sims[idx] > 0.0 {
        results := results + [Candidate(idx, sims[idx], Keyword)];
      }
      i := i + 1;
    }
    assert top[..i] == top;
  }

  class KeywordIndex {
    var vectorizer: Option<Vectorizer>
    var tfidfMatrix: Option<SparseMatrix>

    constructor ()
      ensures vectorizer == None && tfidfMatrix == None
    {
      vectorizer := None;
      tfidfMatrix := None;
    }

    /** `is_ready`: both the vectorizer and the matrix are set. */
    predicate IsReady()
      reads this
    {
      vectorizer.Some? && tfidfMatrix.Some?
    }

    /** The vectorizer carries a non-empty `vocabulary_`. */
    predicate HasVocabulary()
      reads this
    {
      vectorizer.Some? && vectorizer.value.vocabulary.Some? && |vectorizer.value.vocabulary.value| > 0
    }

    /** `_load_existing_index`. The load is tried only when both files
        exist. The matrix is assigned as soon as it loads, the vectorizer as
        soon as the vocabulary loads; `reconstructs` says whether rebuilding
        the vectorizer's private state afterwards succeeds. */
    method LoadExistingIndex(matrixFile: CacheFile<SparseMatrix>, vocabFile: CacheFile<map<string, nat>>,
                             reconstructs: bool)
      returns (loaded: bool)
      modifies this
      ensures loaded <==> matrixFile.Present? && vocabFile.Present? && reconstructs
      ensures !matrixFile.Present? || !vocabFile.Exists() ==>
        vectorizer == old(vectorizer) && tfidfMatrix == old(tfidfMatrix)
      ensures matrixFile.Present? && vocabFile.Exists() ==> tfidfMatrix == Some(matrixFile.value)
      ensures matrixFile.Present? && vocabFile.Unreadable? ==> vectorizer == old(vectorizer)
      ensures matrixFile.Present? && vocabFile.Present? ==>
        vectorizer == Some(Vectorizer(Some(vocabFile.value)))
    {
      if !matrixFile.Exists() || !vocabFile.Exists() {
        return false;
      }
      if matrixFile.Unreadable? {
        return false;
      }
      tfidfMatrix := Some(matrixFile.value);
      if vocabFile.Unreadable? {
        return false;
      }
      vectorizer := Some(Vectorizer(Some(vocabFile.value)));
      loaded := reconstructs;
    }

    /** `_create_new_index`. The unfitted vectorizer is assigned first; `fit`
        is the outcome of `fit_transform(texts)` (`None` when it raises) and
        `saved` whether writing both cache files succeeds. */
    method CreateNewIndex(texts: seq<string>, fit: Option<Fit>, saved: bool) returns (created: bool)
      requires fit.Some? ==> fit.value.matrix.rows == |texts|
      modifies this
      ensures created <==> fit.Some? && saved
      ensures fit.None? ==> vectorizer == Some(Vectorizer(None)) && tfidfMatrix == old(tfidfMatrix)
      ensures fit.Some? ==>
        vectorizer == Some(Vectorizer(Some(fit.value.vocabulary))) && tfidfMatrix == Some(fit.value.matrix)
      ensures created ==> IsReady() && tfidfMatrix.value.rows == |texts|
    {
      vectorizer := Some(Vectorizer(None));
      if fit.None? {
        return false;
      }
      tfidfMatrix := Some(fit.value.matrix);
      vectorizer := Some(Vectorizer(Some(fit.value.vocabulary)));
      created := saved;
    }

    /** `load_or_create_index`: a successful load ends it; otherwise the
        index is built from `texts`. */
    method LoadOrCreateIndex(texts: seq<string>, matrixFile: CacheFile<SparseMatrix>,
                             vocabFile: CacheFile<map<string, nat>>, reconstructs: bool,
                             fit: Option<Fit>, saved: bool)
      returns (ok: bool)
      requires fit.Some? ==> fit.value.matrix.rows == |texts|
      modifies this
      ensures matrixFile.Present? && vocabFile.Present? && reconstructs ==>
        ok && vectorizer == Some(Vectorizer(Some(vocabFile.value))) && tfidfMatrix == Some(matrixFile.value)
      ensures !(matrixFile.Present? && vocabFile.Present? && reconstructs) ==>
        && (ok <==> fit.Some? && saved)
        && vectorizer == Some(Vectorizer(if fit.Some? then Some(fit.value.vocabulary) else None))
        && tfidfMatrix == (if fit.Some? then Some(fit.value.matrix)
                           else if matrixFile.Present? && vocabFile.Exists() then Some(matrixFile.value)
                           else old(tfidfMatrix))
      ensures ok ==> IsReady()
    {
      var loaded := LoadExistingIndex(matrixFile, vocabFile, reconstructs);
      if loaded {
        return true;
      }
      ok := CreateNewIndex(texts, fit, saved);
    }

    /** `search`. `similarities` is the product of the transformed query and
        the matrix (`None` when that raises) and `order` its argsort. Not
        ready, no vocabulary, or a failure: no candidates. */
    method Search(topK: int, similarities: Option<seq<real>>, order: seq<int>) returns (results: seq<Candidate>)
      requires similarities.Some? ==> IsArgsort(order, similarities.value)
      ensures !IsReady() || !HasVocabulary() || similarities.None? ==> results == []
      ensures IsReady() && HasVocabulary() && similarities.Some? ==>
        results == TopPositive(similarities.value, order, topK)
    {
      if !IsReady() {
        return [];
      }
      if !HasVocabulary() {
        return [];
      }
      if similarities.None? {
        return [];
      }
      var sims := similarities.value;
      TopIndicesInRange(sims, order, topK);
      results := CollectPositives(sims, TopIndices(order, topK));
    }
  }
}
