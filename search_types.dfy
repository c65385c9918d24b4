/** Values passed between the two retrievers, the fusion step and result
    assembly. */
module SearchTypes {

  /** The `'type'` tag a retriever puts on its hits. */
  datatype Strategy = Semantic | Keyword

  /** One retriever hit, `{'idx': ..., 'score': ..., 'type': ...}`: a row
      position in the document table and a strategy-local score. */
  datatype Candidate = Candidate(idx: int, score: real, kind: Strategy)

  /** One `(idx, combined_score)` item of the fused score dictionary. */
  datatype Scored = Scored(idx: int, score: real)

  /** A Python dict from row position to fused score. Python dicts remember
      insertion order, and the order decides ties in the later stable sort, so
      the keys are kept as a sequence next to the map. */
  datatype ScoreTable = ScoreTable(keys: seq<int>, scores: map<int, real>) {

    ghost predicate Valid() {
      && (forall i, j :: 0 <= i < j < |keys| ==> keys[i] != keys[j])
      && (forall i :: 0 <= i < |keys| ==> keys[i] in scores)
      && (forall k :: k in scores ==> k in keys)
    }
  }

  /** `dict.items()`: the (key, value) pairs in insertion order. */
  function Items(t: ScoreTable): (items: seq<Scored>)
    requires t.Valid()
    ensures |items| == |t.keys|
    ensures forall i :: 0 <= i < |items| ==> items[i] == Scored(t.keys[i], t.scores[t.keys[i]])
  {
    ItemsOf(t.keys, t.scores)
  }

  function ItemsOf(keys: seq<int>, scores: map<int, real>): (items: seq<Scored>)
    requires forall i :: 0 <= i < |keys| ==> keys[i] in scores
    ensures |items| == |keys|
    ensures forall i :: 0 <= i < |items| ==> items[i] == Scored(keys[i], scores[keys[i]])
  {
    if keys == [] then [] else [Scored(keys[0], scores[keys[0]])] + ItemsOf(keys[1..], scores)
  }

  /** Scores never increase along the sequence. */
  predicate NonIncreasing(s: seq<Scored>) {
    forall i, j :: 0 <= i < j < |s| ==> s[i].score >= s[j].score
  }

  /** Every candidate's score is at least the next one's. */
  predicate Descending(cs: seq<Candidate>) {
    forall i, j :: 0 <= i < j < |cs| ==> cs[i].score >= cs[j].score
  }

  /** Row `idx` is among the candidates. */
  predicate Mentions(cs: seq<Candidate>, idx: int) {
    exists i :: 0 <= i < |cs| && cs[i].idx == idx
  }

  /** A cache file as the file manager sees it: missing, present but failing
      to load, or present with a value. */
  datatype CacheFile<+T> = Absent | Unreadable | Present(value: T) {
    predicate Exists() { !Absent? }
  }

  /** `s[::-1]`. */
  function Reverse<T>(s: seq<T>): (r: seq<T>)
    ensures |r| == |s|
    ensures forall i :: 0 <= i < |s| ==> r[i] == s[|s| - 1 - i]
  {
    if s == [] then [] else Reverse(s[1..]) + [s[0]]
  }
}
