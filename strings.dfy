/** The Python `str` operations the search engine relies on: `strip()`,
    `split()`, `' '.join(...)`, `replace("\n", " ")` and slicing `[:n]`.
    Characters are Unicode code points, as in Python. */
module Strings {

  /** Python's `str.isspace()` on one code point: the characters `strip()` and
      `split()` without arguments treat as whitespace. */
  predicate IsSpace(c: char) {
    var n := c as int;
    n == 0x20 || 0x09 <= n <= 0x0D || 0x1C <= n <= 0x1F || n == 0x85 || n == 0xA0
    || n == 0x1680 || 0x2000 <= n <= 0x200A || n == 0x2028 || n == 0x2029
    || n == 0x202F || n == 0x205F || n == 0x3000
  }

  predicate AllSpace(s: string) {
    forall i :: 0 <= i < |s| ==> IsSpace(s[i])
  }

  /** `s.lstrip()`: `s` without its leading whitespace. */
  function StripLeft(s: string): string {
    if s != [] && IsSpace(s[0]) then StripLeft(s[1..]) else s
  }

  /** `s.rstrip()`: `s` without its trailing whitespace. */
  function StripRight(s: string): string {
    if s != [] && IsSpace(s[|s| - 1]) then StripRight(s[..|s| - 1]) else s
  }

  /** `lstrip()` removes a blank prefix and stops at the first non-space. */
  lemma {:induction false} StripLeftShape(s: string)
    ensures var r := StripLeft(s);
      && |r| <= |s| && r == s[|s| - |r|..]
      && (r == [] || !IsSpace(r[0]))
      && AllSpace(s[..|s| - |r|])
  {
    if s != [] && IsSpace(s[0]) {
      StripLeftShape(s[1..]);
      var r := StripLeft(s);
      assert s[..|s| - |r|] == [s[0]] + s[1..][..|s| - 1 - |r|];
    }
  }

  /** `rstrip()` removes a blank suffix and stops at the last non-space. */
  lemma {:induction false} StripRightShape(s: string)
    ensures var r := StripRight(s);
      && |r| <= |s| && r == s[..|r|]
      && (r == [] || !IsSpace(r[|r| - 1]))
      && AllSpace(s[|r|..])
  {
    if s != [] && IsSpace(s[|s| - 1]) {
      StripRightShape(s[..|s| - 1]);
      var r := StripRight(s);
      assert s[|r|..] == s[..|s| - 1][|r|..] + [s[|s| - 1]];
    }
  }

  /** `s.strip()`: `s` without whitespace at either end. */
  function Strip(s: string): string {
    StripRight(StripLeft(s))
  }

  /** The stripped text is no longer than the text and, unless empty,
      starts and ends with a non-space character. */
  lemma StripShape(s: string)
    ensures var r := Strip(s);
      && |r| <= |s|
      && (r == [] || (!IsSpace(r[0]) && !IsSpace(r[|r| - 1])))
  {
    StripLeftShape(s);
    StripRightShape(StripLeft(s));
  }

  lemma {:induction false} StripLeftBlankPrefix(pre: string, s: string)
    requires AllSpace(pre)
    ensures StripLeft(pre + s) == StripLeft(s)
  {
    if pre == [] {
      assert pre + s == s;
    } else {
      assert (pre + s)[1..] == pre[1..] + s;
      StripLeftBlankPrefix(pre[1..], s);
    }
  }

  lemma {:induction false} StripLeftAppend(s: string, post: string)
    requires StripLeft(s) != []
    ensures StripLeft(s + post) == StripLeft(s) + post
  {
    if IsSpace(s[0]) {
      assert (s + post)[1..] == s[1..] + post;
      StripLeftAppend(s[1..], post);
    }
  }

  lemma {:induction false} StripRightBlankSuffix(s: string, post: string)
    requires AllSpace(post)
    ensures StripRight(s + post) == StripRight(s)
  {
    if post == [] {
      assert s + post == s;
    } else {
      assert (s + post)[..|s + post| - 1] == s + post[..|post| - 1];
      StripRightBlankSuffix(s, post[..|post| - 1]);
    }
  }

  /** Whitespace around a string never changes what `strip()` returns. */
  lemma StripPadded(pre: string, s: string, post: string)
    requires AllSpace(pre) && AllSpace(post)
    ensures Strip(pre + s + post) == Strip(s)
  {
    assert pre + s + post == pre + (s + post);
    StripLeftBlankPrefix(pre, s + post);
    if StripLeft(s) == [] {
      StripLeftShape(s);
      assert AllSpace(s + post);
      StripLeftBlankPrefix(s + post, []);
      assert s + post + [] == s + post;
    } else {
      StripLeftAppend(s, post);
      StripRightBlankSuffix(StripLeft(s), post);
    }
  }

  /** A blank string strips to the empty string. */
  lemma StripBlank(s: string)
    requires AllSpace(s)
    ensures Strip(s) == []
  {
    StripLeftShape(s);
  }

  /** A string with no whitespace at either end is its own `strip()`. */
  lemma StripUnpadded(s: string)
    requires s == [] || (!IsSpace(s[0]) && !IsSpace(s[|s| - 1]))
    ensures Strip(s) == s
  {
  }

  // ---- split() and ' '.join(...) ----

  /** A word of `split()`: non-empty, no whitespace inside. */
  predicate IsWord(w: string) {
    w != [] && forall i :: 0 <= i < |w| ==> !IsSpace(w[i])
  }

  /** `s.split()` with no separator: the maximal runs of non-whitespace. */
  function Words(s: string): seq<string> {
    Scan(s, [])
  }

  /** The words of `s`, given that the word `cur` is being read when `s`
      starts (the character-by-character reading of `split()`). */
  function Scan(s: string, cur: string): seq<string> {
    if s == [] then Flush(cur)
    else if IsSpace(s[0]) then Flush(cur) + Scan(s[1..], [])
    else Scan(s[1..], cur + [s[0]])
  }

  /** The word being read, if there is one. */
  function Flush(cur: string): seq<string> {
    if cur == [] then [] else [cur]
  }

  /** Every piece `split()` returns is a word. */
  lemma {:induction false} ScanWords(s: string, cur: string)
    requires forall i :: 0 <= i < |cur| ==> !IsSpace(cur[i])
    ensures forall k :: 0 <= k < |Scan(s, cur)| ==> IsWord(Scan(s, cur)[k])
  {
    if s != [] {
      if IsSpace(s[0]) {
        ScanWords(s[1..], []);
      } else {
        ScanWords(s[1..], cur + [s[0]]);
      }
    }
  }

  lemma WordsAreWords(s: string)
    ensures forall k :: 0 <= k < |Words(s)| ==> IsWord(Words(s)[k])
  {
    ScanWords(s, []);
  }

  /** `' '.join(ws)`. */
  function Join(ws: seq<string>): string {
    if ws == [] then []
    else if |ws| == 1 then ws[0]
    else ws[0] + " " + Join(ws[1..])
  }

  lemma {:induction false} ScanAroundSpace(a: string, c: char, b: string, cur: string)
    requires IsSpace(c)
    ensures Scan(a + [c] + b, cur) == Scan(a, cur) + Scan(b, [])
  {
    if a == [] {
      assert a + [c] + b == [c] + b;
      assert ([c] + b)[1..] == b;
    } else {
      assert (a + [c] + b)[1..] == a[1..] + [c] + b;
      if IsSpace(a[0]) {
        ScanAroundSpace(a[1..], c, b, []);
      } else {
        ScanAroundSpace(a[1..], c, b, cur + [a[0]]);
      }
    }
  }

  /** Splitting at a whitespace character splits the word list there. */
  lemma WordsAroundSpace(a: string, c: char, b: string)
    requires IsSpace(c)
    ensures Words(a + [c] + b) == Words(a) + Words(b)
  {
    ScanAroundSpace(a, c, b, []);
  }

  lemma {:induction false} ScanWordTail(w: string, cur: string)
    requires forall i :: 0 <= i < |w| ==> !IsSpace(w[i])
    requires cur + w != []
    ensures Scan(w, cur) == [cur + w]
  {
    if w == [] {
      assert cur + w == cur;
    } else {
      assert cur + w == (cur + [w[0]]) + w[1..];
      ScanWordTail(w[1..], cur + [w[0]]);
    }
  }

  lemma SingleWord(w: string)
    requires IsWord(w)
    ensures Words(w) == [w]
  {
    ScanWordTail(w, []);
    assert [] + w == w;
  }

  lemma {:induction false} JoinFirstWord(ws: seq<string>)
    requires |ws| >= 2
    ensures Join(ws) == ws[0] + [' '] + Join(ws[1..])
  {
  }

  /** Splitting a joined list of words gives the words back. */
  lemma {:induction false} WordsOfJoin(ws: seq<string>)
    requires forall k :: 0 <= k < |ws| ==> IsWord(ws[k])
    ensures Words(Join(ws)) == ws
  {
    if ws == [] {
    } else if |ws| == 1 {
      SingleWord(ws[0]);
    } else {
      JoinFirstWord(ws);
      WordsAroundSpace(ws[0], ' ', Join(ws[1..]));
      SingleWord(ws[0]);
      WordsOfJoin(ws[1..]);
    }
  }

  /** What `' '.join` of words looks like: no whitespace at either end, and
      every whitespace character is a single ' ' between two word characters. */
  lemma {:induction false} JoinShape(ws: seq<string>)
    requires forall k :: 0 <= k < |ws| ==> IsWord(ws[k])
    ensures var r := Join(ws);
      && (r == [] <==> ws == [])
      && (r == [] || (!IsSpace(r[0]) && !IsSpace(r[|r| - 1])))
      && forall i :: 0 <= i < |r| && IsSpace(r[i]) ==>
           r[i] == ' ' && 0 < i < |r| - 1 && !IsSpace(r[i - 1]) && !IsSpace(r[i + 1])
  {
    if |ws| >= 2 {
      JoinShape(ws[1..]);
      var w, j := ws[0], Join(ws[1..]);
      var r := Join(ws);
      JoinFirstWord(ws);
      assert r == w + [' '] + j;
      forall i | 0 <= i < |r| && IsSpace(r[i])
        ensures r[i] == ' ' && 0 < i < |r| - 1 && !IsSpace(r[i - 1]) && !IsSpace(r[i + 1])
      {
        if i == |w| {
          assert r[i - 1] == w[|w| - 1];
          assert r[i + 1] == j[0];
        } else {
          assert r[i] == j[i - |w| - 1];
          assert r[i - 1] == j[i - |w| - 2];
          assert r[i + 1] == j[i - |w|];
        }
      }
    }
  }

  // ---- the remaining operations ----

  /** `s.replace(from, to)` for single characters. */
  function Replace(s: string, from: char, to: char): (r: string)
    ensures |r| == |s|
    ensures forall i :: 0 <= i < |s| ==> r[i] == (if s[i] == from then to else s[i])
  {
    if s == [] then [] else [if s[0] == from then to else s[0]] + Replace(s[1..], from, to)
  }

  /** `s[:n]` for a non-negative bound. */
  function Prefix(s: string, n: nat): (r: string)
    ensures |r| == (if |s| <= n then |s| else n)
    ensures r == s[..|r|]
  {
    if |s| <= n then s else s[..n]
  }
}
