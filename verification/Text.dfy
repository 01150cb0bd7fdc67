/**
 * The handful of Python `str` operations the commission calculation relies on:
 * substring search (`in`, pandas `str.contains`), `split(sep)`, `split()` and
 * `strip()`, each defined over `seq<char>` and specified by what it returns.
 */
module Text {
  import opened Wrappers

  /** Python's `str.isspace()` for a single character. */
  predicate IsSpace(c: char) {
    var n := c as int;
    (9 <= n <= 13) || (28 <= n <= 32) || n == 0x85 || n == 0xA0 || n == 0x1680
    || (0x2000 <= n <= 0x200A) || n == 0x2028 || n == 0x2029 || n == 0x202F
    || n == 0x205F || n == 0x3000
  }

  predicate NoSpace(s: string) {
    forall i :: 0 <= i < |s| ==> !IsSpace(s[i])
  }

  /** `m` occurs in `s` starting at index `i`. */
  predicate OccursAt(s: string, m: string, i: int) {
    0 <= i && i + |m| <= |s| && s[i..i + |m|] == m
  }

  /** The first index at or after `from` where `m` occurs in `s` (Python's `str.find`). */
  function IndexFrom(s: string, m: string, from: nat): (r: Option<nat>)
    decreases |s| - from
    ensures r.Some? ==> from <= r.value && OccursAt(s, m, r.value)
    ensures r.Some? ==> forall j :: from <= j < r.value ==> !OccursAt(s, m, j)
    ensures r.None? ==> forall j :: from <= j ==> !OccursAt(s, m, j)
  {
    if |s| < from + |m| then None
    else if OccursAt(s, m, from) then Some(from)
    else IndexFrom(s, m, from + 1)
  }

  /** Python's `m in s`, and pandas' `str.contains(m)` for a pattern without metacharacters. */
  function Contains(s: string, m: string): (b: bool)
    ensures b <==> exists i :: OccursAt(s, m, i)
  {
    IndexFrom(s, m, 0).Some?
  }

  lemma OccursInPrefix(s: string, m: string, n: nat, j: int)
    requires n <= |s|
    ensures OccursAt(s[..n], m, j) <==> OccursAt(s, m, j) && j + |m| <= n
  {
    if 0 <= j && j + |m| <= n {
      assert s[..n][j..j + |m|] == s[j..j + |m|];
    }
  }

  lemma OccursInSuffix(s: string, m: string, n: nat, j: int)
    requires n <= |s|
    ensures OccursAt(s[n..], m, j) <==> OccursAt(s, m, n + j) && 0 <= j
  {
    if 0 <= j && n + j + |m| <= |s| {
      assert s[n..][j..j + |m|] == s[n + j..n + j + |m|];
    }
  }

  /**
   * Python's `s.split(sep)`: the pieces of `s` between the non-overlapping
   * occurrences of `sep`, found left to right.
   */
  function Split(s: string, sep: string): (fields: seq<string>)
    requires sep != []
    decreases |s|
    ensures |fields| >= 1
  {
    match IndexFrom(s, sep, 0)
    case None => [s]
    case Some(i) => [s[..i]] + Split(s[i + |sep|..], sep)
  }

  /** The split has a second piece exactly when the separator occurs. */
  lemma SplitSingle(s: string, sep: string)
    requires sep != []
    ensures |Split(s, sep)| == 1 <==> !Contains(s, sep)
  {
    var r := IndexFrom(s, sep, 0);
    if r.Some? {
      SplitUnfold(s, sep, r.value);
    }
  }

  /** Python's `sep.join(fields)`. */
  function Join(fields: seq<string>, sep: string): string {
    if fields == [] then []
    else if |fields| == 1 then fields[0]
    else fields[0] + sep + Join(fields[1..], sep)
  }

  /** Joining the pieces of a split with the same separator gives back the original text. */
  lemma {:induction false} JoinSplit(s: string, sep: string)
    requires sep != []
    ensures Join(Split(s, sep), sep) == s
    decreases |s|
  {
    var r := IndexFrom(s, sep, 0);
    if r.Some? {
      var i := r.value;
      var rest := s[i + |sep|..];
      JoinSplit(rest, sep);
      SplitUnfold(s, sep, i);
      JoinCons(s[..i], Split(rest, sep), sep);
      Recompose(s, i, |sep|);
    }
  }

  lemma SplitUnfold(s: string, sep: string, i: nat)
    requires sep != [] && IndexFrom(s, sep, 0) == Some(i)
    ensures i + |sep| <= |s| && s[i..i + |sep|] == sep
    ensures Split(s, sep) == [s[..i]] + Split(s[i + |sep|..], sep)
  {
    assert OccursAt(s, sep, i);
  }

  lemma Recompose(s: string, i: nat, n: nat)
    requires i + n <= |s|
    ensures s == s[..i] + s[i..i + n] + s[i + n..]
  {
  }

  lemma JoinCons(head: string, tail: seq<string>, sep: string)
    requires tail != []
    ensures Join([head] + tail, sep) == head + sep + Join(tail, sep)
  {
    assert ([head] + tail)[1..] == tail;
  }

  /**
   * When `sep` first occurs in `s` right after `pre`, the first piece of the
   * split is `pre` and the remaining pieces are those of the text after it.
   */
  lemma SplitAtFirst(s: string, sep: string, pre: string, rest: string)
    requires sep != []
    requires s == pre + sep + rest
    requires forall j :: 0 <= j < |pre| ==> !OccursAt(s, sep, j)
    ensures Split(s, sep) == [pre] + Split(rest, sep)
  {
    assert s[|pre|..|pre| + |sep|] == sep;
    assert OccursAt(s, sep, |pre|);
    var r := IndexFrom(s, sep, 0);
    assert r == Some(|pre|);
    assert s[..|pre|] == pre;
    assert s[|pre| + |sep|..] == rest;
  }

  /** The length of the run of non-space characters that starts `s`. */
  function WordLength(s: string): (k: nat)
    requires s != [] && !IsSpace(s[0])
    ensures 0 < k <= |s| && NoSpace(s[..k])
    ensures k == |s| || IsSpace(s[k])
  {
    if |s| == 1 || IsSpace(s[1]) then 1 else 1 + WordLength(s[1..])
  }

  /** Python's `s.split()`: the maximal runs of non-space characters, in order. */
  function Words(s: string): seq<string>
    decreases |s|
  {
    if s == [] then []
    else if IsSpace(s[0]) then Words(s[1..])
    else
      var k := WordLength(s);
      [s[..k]] + Words(s[k..])
  }

  /**
   * Every word is non-empty and free of whitespace, and there are no words
   * exactly when the text is all whitespace.
   */
  lemma {:induction false} WordsShape(s: string)
    decreases |s|
    ensures forall k :: 0 <= k < |Words(s)| ==> Words(s)[k] != [] && NoSpace(Words(s)[k])
    ensures Words(s) == [] <==> forall i :: 0 <= i < |s| ==> IsSpace(s[i])
  {
    if s != [] {
      if IsSpace(s[0]) {
        WordsShape(s[1..]);
        assert forall i :: 1 <= i < |s| ==> s[1..][i - 1] == s[i];
      } else {
        WordsShape(s[WordLength(s)..]);
      }
    }
  }

  /**
   * A word followed by nothing or by a space is the first word of the text,
   * and the remaining words are those of what follows it.
   */
  lemma FirstWord(w: string, rest: string)
    requires w != [] && NoSpace(w)
    requires rest == [] || IsSpace(rest[0])
    ensures Words(w + rest) == [w] + Words(rest)
  {
    var s := w + rest;
    assert s[0] == w[0];
    var k := WordLength(s);
    assert k == |w| by {
      assert forall i :: 0 <= i < |w| ==> s[i] == w[i];
      assert |w| < |s| ==> s[|w|] == rest[0];
    }
    assert s[..k] == w;
    assert s[k..] == rest;
  }

  /** A whitespace character in front of a text adds no word. */
  lemma WordsSkip(c: char, s: string)
    requires IsSpace(c)
    ensures Words([c] + s) == Words(s)
  {
    assert ([c] + s)[1..] == s;
  }

  /** Whitespace in front of a text adds no word. */
  lemma {:induction false} WordsSpaces(ws: string, s: string)
    requires forall i :: 0 <= i < |ws| ==> IsSpace(ws[i])
    ensures Words(ws + s) == Words(s)
  {
    if ws == [] {
      assert ws + s == s;
    } else {
      var tail := ws[1..];
      assert forall i :: 0 <= i < |tail| ==> tail[i] == ws[i + 1];
      WordsSpaces(tail, s);
      assert ws + s == [ws[0]] + (tail + s);
      WordsSkip(ws[0], tail + s);
    }
  }

  /** Whitespace, then a word ending at whitespace or at the end: that word opens `split()`. */
  lemma LeadingWord(ws: string, w: string, rest: string)
    requires forall i :: 0 <= i < |ws| ==> IsSpace(ws[i])
    requires w != [] && NoSpace(w)
    requires rest == [] || IsSpace(rest[0])
    ensures Words(ws + (w + rest)) == [w] + Words(rest)
  {
    WordsSpaces(ws, w + rest);
    FirstWord(w, rest);
  }

  /** The number of whitespace characters that open `s`. */
  function LeadingSpaces(s: string): (k: nat)
    ensures k <= |s|
    ensures forall i :: 0 <= i < k ==> IsSpace(s[i])
    ensures k < |s| ==> !IsSpace(s[k])
  {
    if s != [] && IsSpace(s[0]) then 1 + LeadingSpaces(s[1..]) else 0
  }

  /** The number of whitespace characters that close `s`. */
  function TrailingSpaces(s: string): (k: nat)
    ensures k <= |s|
    ensures forall i :: |s| - k <= i < |s| ==> IsSpace(s[i])
    ensures k < |s| ==> !IsSpace(s[|s| - 1 - k])
  {
    if s != [] && IsSpace(s[|s| - 1]) then 1 + TrailingSpaces(s[..|s| - 1]) else 0
  }

  /** Python's `s.strip()`: `s` without its leading and trailing whitespace. */
  function Strip(s: string): (t: string)
    ensures t == [] || (!IsSpace(t[0]) && !IsSpace(t[|t| - 1]))
    ensures LeadingSpaces(s) + |t| <= |s|
    ensures t == s[LeadingSpaces(s)..LeadingSpaces(s) + |t|]
    ensures forall k :: LeadingSpaces(s) + |t| <= k < |s| ==> IsSpace(s[k])
  {
    var i := LeadingSpaces(s);
    var j := TrailingSpaces(s[i..]);
    TrailingAfter(s, i);
    s[i..|s| - j]
  }

  /** The whitespace closing `s[i..]`, seen as positions of `s`. */
  lemma TrailingAfter(s: string, i: nat)
    requires i <= |s|
    ensures i + TrailingSpaces(s[i..]) <= |s|
    ensures forall k :: |s| - TrailingSpaces(s[i..]) <= k < |s| ==> IsSpace(s[k])
    ensures i + TrailingSpaces(s[i..]) < |s| ==> !IsSpace(s[|s| - 1 - TrailingSpaces(s[i..])])
  {
    var u := s[i..];
    assert forall m :: 0 <= m < |u| ==> u[m] == s[i + m];
  }

  /** A character that is not whitespace survives `strip()`, at its place shifted by the leading whitespace. */
  lemma StripKeeps(s: string, k: nat)
    requires k < |s| && !IsSpace(s[k])
    ensures LeadingSpaces(s) <= k < LeadingSpaces(s) + |Strip(s)|
    ensures Strip(s)[k - LeadingSpaces(s)] == s[k]
  {
    var i := LeadingSpaces(s);
    var j := TrailingSpaces(s[i..]);
    TrailingAfter(s, i);
    assert Strip(s) == s[i..|s| - j];
  }
}
