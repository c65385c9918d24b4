/** The embedding retriever: its readiness, the load-else-build decision
    over its two cache files, and the post-processing of a FAISS answer into
    semantic candidates. Encoding and the FAISS index itself are library
    code; their results enter as parameters. */
module SemanticIndex {
  import opened Wrappers
  import opened SearchTypes

  /** An embedding matrix, one row per indexed document. */
  datatype Embeddings = Embeddings(count: nat)

  /** A flat inner-product FAISS index holding `size` vectors. */
  datatype FaissIndex = FaissIndex(size: nat)

  /** One column of FAISS's answer: a row id, or -1 when the index has fewer
      vectors than were asked for, and its inner product. */
  datatype Hit = Hit(id: int, distance: real)

  /** The loop over `zip(indices[0], distances[0])`: every hit except the
      `-1` fillers, in FAISS's order, tagged 'semantic'. */
  function Found(hits: seq<Hit>): (r: seq<Candidate>)
    ensures |r| <= |hits|
    ensures forall i :: 0 <= i < |r| ==>
      r[i].idx != -1 && r[i].kind == Semantic && Hit(r[i].idx, r[i].score) in hits
  {
    if hits == [] then []
    else
      var h := hits[|hits| - 1];
      Found(hits[..|hits| - 1]) + if h.id != -1 then [Candidate(h.id, h.distance, Semantic)] else []
  }

  /** One hit on its own: dropped if it is a `-1` filler, kept otherwise. */
  lemma FoundSingle(h: Hit)
    ensures Found([h]) == if h.id == -1 then [] else [Candidate(h.id, h.distance, Semantic)]
  {
    assert [h][..0] == [];
  }

  /** Filtering distributes over concatenation, so the kept hits stay in the
      order FAISS returned them. */
  lemma {:induction false} FoundAppend(a: seq<Hit>, b: seq<Hit>)
    ensures Found(a + b) == Found(a) + Found(b)
  {
    if b == [] {
      assert a + b == a;
    } else {
      assert (a + b)[..|a + b| - 1] == a + b[..|b| - 1];
      FoundAppend(a, b[..|b| - 1]);
    }
  }

  /** Every hit that is not a `-1` filler is kept. */
  lemma {:induction false} FoundComplete(hits: seq<Hit>, k: int)
    requires 0 <= k < |hits| && hits[k].id != -1
    ensures Candidate(hits[k].id, hits[k].distance, Semantic) in Found(hits)
  {
    if k < |hits| - 1 {
      FoundComplete(hits[..|hits| - 1], k);
    }
  }

  /** The loop of `search` over the ids and distances FAISS returned. */
  method CollectFound(hits: seq<Hit>) returns (results: seq<Candidate>)
    ensures results == Found(hits)
  {
    results := [];
    var i := 0;
    while i < |hits|
      invariant 0 <= i <= |hits|
      invariant results == Found(hits[..i])
    {
      assert hits[..i + 1][..i] == hits[..i];
      if hits[i].id != -1 {
        results := results + [Candidate(hits[i].id, hits[i].distance, Semantic)];
      }
      i := i + 1;
    }
    assert hits[..i] == hits;
  }

  class SemanticIndex {
    /** Whether the model manager holds a loaded embedding model. */
    const modelLoaded: bool
    var embeddings: Option<Embeddings>
    var index: Option<FaissIndex>

    constructor (modelLoaded: bool)
      ensures this.modelLoaded == modelLoaded && embeddings == None && index == None
    {
      this.modelLoaded := modelLoaded;
      embeddings := None;
      index := None;
    }

    /** `is_ready`: embeddings and index are set and the model is loaded. */
    predicate IsReady()
      reads this
    {
      embeddings.Some? && index.Some? && modelLoaded
    }

    /** `_load_existing_index`. Tried only when both files exist; the
        embeddings are assigned as soon as they load. */
    method LoadExistingIndex(embeddingsFile: CacheFile<Embeddings>, indexFile: CacheFile<FaissIndex>)
      returns (loaded: bool)
      modifies this
      ensures loaded <==> embeddingsFile.Present? && indexFile.Present?
      ensures embeddings ==
        if embeddingsFile.Present? && indexFile.Exists() then Some(embeddingsFile.value) else old(embeddings)
      ensures index == if loaded then Some(indexFile.value) else old(index)
    {
      if !embeddingsFile.Exists() || !indexFile.Exists() {
        return false;
      }
      if embeddingsFile.Unreadable? {
        return false;
      }
      embeddings := Some(embeddingsFile.value);
      if indexFile.Unreadable? {
        return false;
      }
      index := Some(indexFile.value);
      loaded := true;
    }

    /** `_create_new_index`. `encoded` is the model's embedding of `texts`
        (`None` when encoding raises), `added` whether adding them to the
        fresh index succeeds and `saved` whether writing both cache files
        succeeds. */
    method CreateNewIndex(texts: seq<string>, encoded: Option<Embeddings>, added: bool, saved: bool)
      returns (created: bool)
      requires encoded.Some? ==> encoded.value.count == |texts|
      modifies this
      ensures created <==> encoded.Some? && added && saved
      ensures embeddings == if encoded.Some? then encoded else old(embeddings)
      ensures index ==
        if encoded.None? then old(index)
        else if added then Some(FaissIndex(|texts|))
        else Some(FaissIndex(0))
      ensures created ==> index == Some(FaissIndex(|texts|))
    {
      if encoded.None? {
        return false;
      }
      embeddings := encoded;
      index := Some(FaissIndex(0));
      if !added {
        return false;
      }
      index := Some(FaissIndex(encoded.value.count));
      created := saved;
    }

    /** `load_or_create_index`: a successful load ends it; without a model
        nothing is built; otherwise the index is built from `texts`. */
    method LoadOrCreateIndex(texts: seq<string>, embeddingsFile: CacheFile<Embeddings>,
                             indexFile: CacheFile<FaissIndex>, encoded: Option<Embeddings>,
                             added: bool, saved: bool)
      returns (ok: bool)
      requires encoded.Some? ==> encoded.value.count == |texts|
      modifies this
      ensures embeddingsFile.Present? && indexFile.Present? ==>
        ok && embeddings == Some(embeddingsFile.value) && index == Some(indexFile.value)
      ensures !(embeddingsFile.Present? && indexFile.Present?) && !modelLoaded ==>
        !ok && index == old(index) &&
        embeddings == if embeddingsFile.Present? && indexFile.Exists() then Some(embeddingsFile.value) else old(embeddings)
      ensures !(embeddingsFile.Present? && indexFile.Present?) && modelLoaded ==>
        && (ok <==> encoded.Some? && added && saved)
        && embeddings == (if encoded.Some? then encoded
                          else if embeddingsFile.Present? && indexFile.Exists() then Some(embeddingsFile.value)
                          else old(embeddings))
        && index == (if encoded.None? then old(index)
                     else if added then Some(FaissIndex(|texts|)) else Some(FaissIndex(0)))
      ensures ok ==> embeddings.Some? && index.Some?
    {
      var loaded := LoadExistingIndex(embeddingsFile, indexFile);
      if loaded {
        return true;
      }
      if !modelLoaded {
        return false;
      }
      ok := CreateNewIndex(texts, encoded, added, saved);
    }

    /** `search`. `hits` is FAISS's answer for the encoded query (`None`
        when encoding or the FAISS search raises). Not ready or a failure:
        no candidates. */
    method Search(hits: Option<seq<Hit>>) returns (results: seq<Candidate>)
      ensures !IsReady() || hits.None? ==> results == []
      ensures IsReady() && hits.Some? ==> results == Found(hits.value)
    {
      if !IsReady() {
        return [];
      }
      if hits.None? {
        return [];
      }
      results := CollectFound(hits.value);
    }
  }
}
