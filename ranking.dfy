/** What the result formatter and the search service share: the stable
    descending sort of the fused scores, and the walk over the sorted entries
    that skips repeated titles and stops after `top_k` kept entries. */
module Ranking {
  import opened Wrappers
  import opened Strings
  import opened SearchTypes
  import opened DataLoader

  // ---- sorted(items, key=score, reverse=True) ----

  /** Places `x` after every trailing element whose score is below it:
      after all elements scoring at least as much, before the lower ones. */
  function Insert(s: seq<Scored>, x: Scored): (r: seq<Scored>)
    ensures multiset(r) == multiset(s) + multiset{x}
  {
    if s == [] then [x]
    else if s[|s| - 1].score >= x.score then s + [x]
    else
      var init := s[..|s| - 1];
      assert s == init + [s[|s| - 1]];
      Insert(init, x) + [s[|s| - 1]]
  }

  /** Python's `sorted(items, key=lambda x: x[1], reverse=True)`, a stable
      sort, as an insertion sort. */
  function SortByScore(items: seq<Scored>): (r: seq<Scored>)
    ensures multiset(r) == multiset(items)
  {
    if items == [] then []
    else
      var init := items[..|items| - 1];
      assert items == init + [items[|items| - 1]];
      Insert(SortByScore(init), items[|items| - 1])
  }

  lemma {:induction false} InsertSorted(s: seq<Scored>, x: Scored)
    requires NonIncreasing(s)
    ensures NonIncreasing(Insert(s, x))
  {
    if s != [] && s[|s| - 1].score < x.score {
      var init, last := s[..|s| - 1], s[|s| - 1];
      InsertSorted(init, x);
      var front := Insert(init, x);
      assert Insert(s, x) == front + [last];
      forall k | 0 <= k < |front|
        ensures front[k].score >= last.score
      {
        var e := front[k];
        assert e in multiset(front);
        if e != x {
          assert e in multiset(init);
          var j :| 0 <= j < |init| && init[j] == e;
          assert s[j] == e;
        }
      }
      SnocNonIncreasing(front, last);
    }
  }

  lemma SnocNonIncreasing(s: seq<Scored>, x: Scored)
    requires NonIncreasing(s) && forall k :: 0 <= k < |s| ==> s[k].score >= x.score
    ensures NonIncreasing(s + [x])
  {
    var r := s + [x];
    forall i, j | 0 <= i < j < |r|
      ensures r[i].score >= r[j].score
    {
      assert r[i] == s[i];
    }
  }

  /** The sort puts the highest score first. */
  lemma {:induction false} SortSorted(items: seq<Scored>)
    ensures NonIncreasing(SortByScore(items))
  {
    if items != [] {
      SortSorted(items[..|items| - 1]);
      InsertSorted(SortByScore(items[..|items| - 1]), items[|items| - 1]);
    }
  }

  /** `[x]` when `x` has score `v`, otherwise nothing. */
  function Matching(x: Scored, v: real): seq<Scored> {
    if x.score == v then [x] else []
  }

  /** The entries with score `v`, in order. */
  function WithScore(s: seq<Scored>, v: real): seq<Scored> {
    if s == [] then [] else WithScore(s[..|s| - 1], v) + Matching(s[|s| - 1], v)
  }

  lemma WithScoreSnoc(s: seq<Scored>, x: Scored, v: real)
    ensures WithScore(s + [x], v) == WithScore(s, v) + Matching(x, v)
  {
    assert (s + [x])[..|s|] == s;
  }

  lemma {:induction false} InsertStable(s: seq<Scored>, x: Scored, v: real)
    ensures WithScore(Insert(s, x), v) == WithScore(s, v) + Matching(x, v)
  {
    if s == [] {
      WithScoreSnoc([], x, v);
    } else if s[|s| - 1].score >= x.score {
      WithScoreSnoc(s, x, v);
    } else {
      var init, last := s[..|s| - 1], s[|s| - 1];
      assert Insert(s, x) == Insert(init, x) + [last];
      assert s == init + [last];
      InsertStable(init, x, v);
      WithScoreSnoc(Insert(init, x), last, v);
      WithScoreSnoc(init, last, v);
      if x.score == v {
        assert Matching(last, v) == [];
      } else {
        assert Matching(x, v) == [];
      }
    }
  }

  /** Stability: entries with equal scores keep their relative order, which
      for a dict's items is insertion order. */
  lemma {:induction false} SortStable(items: seq<Scored>, v: real)
    ensures WithScore(SortByScore(items), v) == WithScore(items, v)
  {
    if items != [] {
      var init, last := items[..|items| - 1], items[|items| - 1];
      SortStable(init, v);
      InsertStable(SortByScore(init), last, v);
    }
  }

  // ---- the seen_titles / displayed / top_k walk ----

  /** `df.iloc[idx]` followed by `row["TITLE"]`: the row, or `None` when
      either raises. */
  function TitledRow(t: Table, idx: int): (r: Option<Row>)
    ensures r.Some? ==> "TITLE" in r.value && ILoc(t, idx) == r
  {
    match ILoc(t, idx)
    case None => None
    case Some(row) => if "TITLE" in row then Some(row) else None
  }

  /** `row["TITLE"].strip()` for the row at `idx`, when it can be read. */
  function TitleAt(t: Table, idx: int): Option<string> {
    match TitledRow(t, idx)
    case None => None
    case Some(row) => Some(Strip(row["TITLE"]))
  }

  /** A kept entry: its position among the sorted entries, the entry, its
      row and its stripped title. */
  datatype Pick = Pick(pos: nat, entry: Scored, row: Row, title: string)

  /** The walk's state: `seen_titles` and the entries kept so far (their
      number is the `displayed` counter). */
  datatype WalkState = WalkState(seen: set<string>, picked: seq<Pick>)

  /** One pass of the loop body at position `i`: once `top_k` entries are
      kept the walk has stopped and nothing changes; otherwise the row is
      looked up (an unreadable row raises, reported with its `idx`), and the
      entry is kept unless its stripped title was seen. */
  function WalkStep(entries: seq<Scored>, i: nat, t: Table, topK: int, s: WalkState): Result<WalkState, int>
    requires i < |entries|
  {
    if |s.picked| >= topK then Ok(s)
    else
      var e := entries[i];
      match TitledRow(t, e.idx)
      case None => Err(e.idx)
      case Some(row) =>
        var title := Strip(row["TITLE"]);
        if title in s.seen then Ok(s)
        else Ok(WalkState(s.seen + {title}, s.picked + [Pick(i, e, row, title)]))
  }

  /** The walk over the first `n` entries. */
  function WalkTo(entries: seq<Scored>, n: nat, t: Table, topK: int): Result<WalkState, int>
    requires n <= |entries|
    decreases n, 0
  {
    if n == 0 then Ok(WalkState({}, [])) else WalkOn(entries, n - 1, t, topK)
  }

  /** The walk through position `i`: the walk over the first `i` entries,
      then the pass at `i`. */
  function WalkOn(entries: seq<Scored>, i: nat, t: Table, topK: int): Result<WalkState, int>
    requires i < |entries|
    decreases i, 1
  {
    match WalkTo(entries, i, t, topK)
    case Err(idx) => Err(idx)
    case Ok(s) => WalkStep(entries, i, t, topK, s)
  }

  /** The whole walk over `entries`: the kept entries, or the `idx` of the
      row whose lookup raises. */
  function Select(entries: seq<Scored>, t: Table, topK: int): Result<seq<Pick>, int> {
    match WalkTo(entries, |entries|, t, topK)
    case Err(idx) => Err(idx)
    case Ok(s) => Ok(s.picked)
  }

  /** The walk has ended: a lookup raised, or `top_k` entries are kept. */
  predicate Stopped(r: Result<WalkState, int>, topK: int) {
    r.Err? || |r.value.picked| >= topK
  }

  /** Once the walk has ended, the rest of it changes nothing: raising or
      breaking out of the loop there gives the same result. */
  lemma {:induction false} WalkStopped(entries: seq<Scored>, i: nat, n: nat, t: Table, topK: int)
    requires i <= n <= |entries| && Stopped(WalkTo(entries, i, t, topK), topK)
    ensures WalkTo(entries, n, t, topK) == WalkTo(entries, i, t, topK)
  {
    if n > i {
      WalkStopped(entries, i, n - 1, t, topK);
    }
  }

  /** Kept entries appear in the order of the entries, each where it says. */
  ghost predicate InOrder(entries: seq<Scored>, ps: seq<Pick>) {
    && (forall k :: 0 <= k < |ps| ==> ps[k].pos < |entries| && entries[ps[k].pos] == ps[k].entry)
    && (forall k, l :: 0 <= k < l < |ps| ==> ps[k].pos < ps[l].pos)
  }

  /** Each kept entry's row is the readable row of its `idx`, and its title
      is that row's stripped TITLE. */
  ghost predicate Faithful(t: Table, ps: seq<Pick>) {
    forall k :: 0 <= k < |ps| ==>
      TitledRow(t, ps[k].entry.idx) == Some(ps[k].row) && ps[k].title == Strip(ps[k].row["TITLE"])
  }

  /** No two kept entries share a stripped title. */
  ghost predicate DistinctTitles(ps: seq<Pick>) {
    forall k, l :: 0 <= k < l < |ps| ==> ps[k].title != ps[l].title
  }

  /** Each kept entry is the first entry with its title: every entry before
      it was readable and had another title. */
  ghost predicate FirstOccurrences(entries: seq<Scored>, t: Table, ps: seq<Pick>) {
    forall k, q :: 0 <= k < |ps| && 0 <= q < ps[k].pos && q < |entries| ==>
      TitleAt(t, entries[q].idx).Some? && TitleAt(t, entries[q].idx).value != ps[k].title
  }

  /** The titles of the kept entries: the `seen_titles` set. */
  function TitleSet(ps: seq<Pick>): (r: set<string>)
    ensures forall k :: 0 <= k < |ps| ==> ps[k].title in r
  {
    if ps == [] then {} else TitleSet(ps[..|ps| - 1]) + {ps[|ps| - 1].title}
  }

  /** A title in the set is some kept entry's title. */
  lemma {:induction false} TitleSetMember(ps: seq<Pick>, title: string)
    requires title in TitleSet(ps)
    ensures exists k :: 0 <= k < |ps| && ps[k].title == title
  {
    if ps[|ps| - 1].title != title {
      TitleSetMember(ps[..|ps| - 1], title);
      var k :| 0 <= k < |ps| - 1 && ps[..|ps| - 1][k].title == title;
      assert ps[k].title == title;
    }
  }

  lemma TitleSetSnoc(ps: seq<Pick>, p: Pick)
    ensures TitleSet(ps + [p]) == TitleSet(ps) + {p.title}
  {
    assert (ps + [p])[..|ps|] == ps;
  }

  /** Every kept entry comes before position `i`. */
  ghost predicate Before(picked: seq<Pick>, i: nat) {
    forall k :: 0 <= k < |picked| ==> picked[k].pos < i
  }

  /** Every one of the first `i` entries is readable, with its title in
      `seen`. */
  ghost predicate AllSeen(entries: seq<Scored>, i: nat, t: Table, seen: set<string>)
    requires i <= |entries|
  {
    forall q :: 0 <= q < i ==> TitleAt(t, entries[q].idx).Some? && TitleAt(t, entries[q].idx).value in seen
  }

  /** Every entry before the last kept one has its title among the kept
      titles: until the walk is full, only repeated titles are passed over. */
  ghost predicate NoneSkipped(entries: seq<Scored>, t: Table, ps: seq<Pick>) {
    ps != [] ==> ps[|ps| - 1].pos <= |entries| && AllSeen(entries, ps[|ps| - 1].pos, t, TitleSet(ps))
  }

  /** The invariant of the walk after `i` entries. */
  ghost predicate Walked(entries: seq<Scored>, i: nat, t: Table, topK: int, seen: set<string>, picked: seq<Pick>) {
    && i <= |entries|
    && InOrder(entries, picked) && Faithful(t, picked) && DistinctTitles(picked)
    && FirstOccurrences(entries, t, picked) && seen == TitleSet(picked) && Before(picked, i)
    && (|picked| < topK ==> AllSeen(entries, i, t, seen))
    && (|picked| <= topK || picked == [])
    && NoneSkipped(entries, t, picked)
  }

  lemma WalkedStart(entries: seq<Scored>, t: Table, topK: int)
    ensures Walked(entries, 0, t, topK, {}, [])
  {
  }

  lemma KeepInOrder(entries: seq<Scored>, i: nat, picked: seq<Pick>, p: Pick)
    requires InOrder(entries, picked) && forall k :: 0 <= k < |picked| ==> picked[k].pos < i
    requires i < |entries| && p.pos == i && p.entry == entries[i]
    ensures InOrder(entries, picked + [p])
  {
  }

  lemma KeepFaithful(t: Table, picked: seq<Pick>, p: Pick)
    requires Faithful(t, picked)
    requires TitledRow(t, p.entry.idx) == Some(p.row) && p.title == Strip(p.row["TITLE"])
    ensures Faithful(t, picked + [p])
  {
  }

  lemma KeepDistinct(picked: seq<Pick>, p: Pick)
    requires DistinctTitles(picked) && p.title !in TitleSet(picked)
    ensures DistinctTitles(picked + [p])
  {
  }

  lemma KeepFirst(entries: seq<Scored>, i: nat, t: Table, picked: seq<Pick>, p: Pick)
    requires FirstOccurrences(entries, t, picked) && p.pos == i && i <= |entries|
    requires AllSeen(entries, i, t, TitleSet(picked))
    requires p.title !in TitleSet(picked)
    ensures FirstOccurrences(entries, t, picked + [p])
  {
    var next := picked + [p];
    forall k, q | 0 <= k < |next| && 0 <= q < next[k].pos && q < |entries|
      ensures TitleAt(t, entries[q].idx).Some? && TitleAt(t, entries[q].idx).value != next[k].title
    {
      if k < |picked| {
        assert next[k] == picked[k];
      }
    }
  }

  lemma KeepNoneSkipped(entries: seq<Scored>, i: nat, t: Table, picked: seq<Pick>, p: Pick)
    requires i <= |entries| && p.pos == i
    requires AllSeen(entries, i, t, TitleSet(picked))
    ensures NoneSkipped(entries, t, picked + [p])
  {
    TitleSetSnoc(picked, p);
  }

  /** One step of the walk keeps the invariant. */
  lemma WalkedStep(entries: seq<Scored>, i: nat, t: Table, topK: int, s: WalkState)
    requires Walked(entries, i, t, topK, s.seen, s.picked)
    requires i < |entries| && WalkStep(entries, i, t, topK, s).Ok?
    ensures var s' := WalkStep(entries, i, t, topK, s).value;
      Walked(entries, i + 1, t, topK, s'.seen, s'.picked)
  {
    if |s.picked| >= topK {
      WalkedSkip(entries, i, t, topK, s);
    } else {
      var row := TitledRow(t, entries[i].idx).value;
      var title := Strip(row["TITLE"]);
      assert TitleAt(t, entries[i].idx) == Some(title);
      if title in s.seen {
        WalkedSkip(entries, i, t, topK, s);
      } else {
        WalkedKeep(entries, i, t, topK, s, Pick(i, entries[i], row, title));
      }
    }
  }

  /** Passing over an entry once the walk is full, or over a seen title. */
  lemma WalkedSkip(entries: seq<Scored>, i: nat, t: Table, topK: int, s: WalkState)
    requires Walked(entries, i, t, topK, s.seen, s.picked) && i < |entries|
    requires |s.picked| >= topK || (TitleAt(t, entries[i].idx).Some? && TitleAt(t, entries[i].idx).value in s.seen)
    ensures Walked(entries, i + 1, t, topK, s.seen, s.picked)
  {
  }

  /** Keeping the entry at `i`, whose title is new. */
  lemma WalkedKeep(entries: seq<Scored>, i: nat, t: Table, topK: int, s: WalkState, p: Pick)
    requires Walked(entries, i, t, topK, s.seen, s.picked) && i < |entries| && |s.picked| < topK
    requires p.pos == i && p.entry == entries[i]
    requires TitledRow(t, entries[i].idx) == Some(p.row) && p.title == Strip(p.row["TITLE"])
    requires p.title !in s.seen
    ensures Walked(entries, i + 1, t, topK, s.seen + {p.title}, s.picked + [p])
  {
    assert TitleAt(t, entries[i].idx) == Some(p.title);
    KeepInOrder(entries, i, s.picked, p);
    KeepFaithful(t, s.picked, p);
    KeepDistinct(s.picked, p);
    KeepFirst(entries, i, t, s.picked, p);
    TitleSetSnoc(s.picked, p);
    KeepNoneSkipped(entries, i, t, s.picked, p);
  }

  /** What every successful walk delivers. */
  ghost predicate Selected(entries: seq<Scored>, t: Table, topK: int, ps: seq<Pick>) {
    && InOrder(entries, ps) && Faithful(t, ps) && DistinctTitles(ps) && FirstOccurrences(entries, t, ps)
    && (|ps| <= topK || ps == [])
    && (|ps| < topK ==> AllSeen(entries, |entries|, t, TitleSet(ps)))
    && NoneSkipped(entries, t, ps)
  }

  lemma {:induction false} WalkToSound(entries: seq<Scored>, n: nat, t: Table, topK: int)
    requires n <= |entries|
    ensures var r := WalkTo(entries, n, t, topK);
      r.Ok? ==> Walked(entries, n, t, topK, r.value.seen, r.value.picked)
    decreases n, 0
  {
    if n > 0 {
      WalkOnSound(entries, n - 1, t, topK);
    }
  }

  lemma {:induction false} WalkOnSound(entries: seq<Scored>, i: nat, t: Table, topK: int)
    requires i < |entries|
    ensures var r := WalkOn(entries, i, t, topK);
      r.Ok? ==> Walked(entries, i + 1, t, topK, r.value.seen, r.value.picked)
    decreases i, 1
  {
    WalkToSound(entries, i, t, topK);
    match WalkTo(entries, i, t, topK)
    case Err(_) =>
    case Ok(s) =>
      if WalkStep(entries, i, t, topK, s).Ok? {
        WalkedStep(entries, i, t, topK, s);
      }
  }

  /** The walk keeps at most `top_k` entries (none when `top_k <= 0`), in
      order, with pairwise distinct titles, each the first entry with its
      title; every entry before the last kept one has its title among the
      kept ones, and when it keeps fewer than `top_k` so does every entry. */
  lemma SelectSound(entries: seq<Scored>, t: Table, topK: int)
    ensures Select(entries, t, topK).Ok? ==> Selected(entries, t, topK, Select(entries, t, topK).value)
  {
    WalkToSound(entries, |entries|, t, topK);
  }

  /** The walk raises at position `q`: it is still running there (no raise
      before, fewer than `top_k` kept) and the row of that entry cannot be
      read. Rows past the `top_k` cut are never looked up. */
  ghost predicate RaisesAt(entries: seq<Scored>, t: Table, topK: int, q: nat)
    requires q < |entries|
  {
    && WalkTo(entries, q, t, topK).Ok?
    && |WalkTo(entries, q, t, topK).value.picked| < topK
    && TitledRow(t, entries[q].idx).None?
  }

  /** The walk over the first `n` entries raises exactly when it reaches an
      unreadable row before the cut, and then reports that row's `idx`. */
  lemma {:induction false} WalkToFails(entries: seq<Scored>, n: nat, t: Table, topK: int)
    requires n <= |entries|
    ensures var r := WalkTo(entries, n, t, topK);
      && (r.Err? ==> exists q :: 0 <= q < n && RaisesAt(entries, t, topK, q) && entries[q].idx == r.error)
      && ((exists q :: 0 <= q < n && RaisesAt(entries, t, topK, q)) ==> r.Err?)
  {
    if n > 0 {
      WalkToFails(entries, n - 1, t, topK);
      if WalkTo(entries, n - 1, t, topK).Ok? && WalkTo(entries, n, t, topK).Err? {
        var st := WalkTo(entries, n - 1, t, topK).value;
        assert WalkTo(entries, n, t, topK) == WalkStep(entries, n - 1, t, topK, st);
        assert RaisesAt(entries, t, topK, n - 1) && entries[n - 1].idx == WalkTo(entries, n, t, topK).error;
      }
      if exists q :: 0 <= q < n && RaisesAt(entries, t, topK, q) {
        var q :| 0 <= q < n && RaisesAt(entries, t, topK, q);
        assert WalkTo(entries, q + 1, t, topK).Err?;
        WalkStopped(entries, q + 1, n, t, topK);
      }
    }
  }

  /** The walk fails exactly when it reaches an unreadable row before the
      `top_k` cut, and then names that row; an unreadable row past the cut
      is never looked up. */
  lemma SelectFails(entries: seq<Scored>, t: Table, topK: int)
    ensures var r := Select(entries, t, topK);
      && (r.Err? <==> exists q :: 0 <= q < |entries| && RaisesAt(entries, t, topK, q))
      && (r.Err? ==> exists q :: 0 <= q < |entries| && RaisesAt(entries, t, topK, q) && entries[q].idx == r.error)
  {
    WalkToFails(entries, |entries|, t, topK);
  }

  /** In particular the walk never fails when every row can be read. */
  lemma ReadableNeverFails(entries: seq<Scored>, t: Table, topK: int)
    requires forall q :: 0 <= q < |entries| ==> TitledRow(t, entries[q].idx).Some?
    ensures Select(entries, t, topK).Ok?
  {
    SelectFails(entries, t, topK);
  }

  /** A row past the cut does not matter: with the first entry readable and
      `top_k` one, the walk keeps it and succeeds whatever follows. */
  lemma CutStopsLookups(entries: seq<Scored>, t: Table)
    requires |entries| > 0 && TitledRow(t, entries[0].idx).Some?
    ensures Select(entries, t, 1).Ok? && |Select(entries, t, 1).value| == 1
  {
    assert WalkTo(entries, 1, t, 1).Ok? && |WalkTo(entries, 1, t, 1).value.picked| == 1;
    WalkStopped(entries, 1, |entries|, t, 1);
  }

  /** With sorted entries, the kept entries come highest score first. */
  lemma PicksDescending(entries: seq<Scored>, ps: seq<Pick>)
    requires NonIncreasing(entries) && InOrder(entries, ps)
    ensures forall k, l :: 0 <= k < l < |ps| ==> ps[k].entry.score >= ps[l].entry.score
  {
  }
}
