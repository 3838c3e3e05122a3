/**
 * The handful of Python `str` operations the scripts rely on, with the
 * semantics CPython gives them: `strip()`, `rstrip(chars)`, `split(sep)`,
 * `sep.join(parts)`, `replace(old, new)`, `in` and `startswith`.
 */
module PyStrings {

  /** Python's `str.isspace()` for a single character. */
  predicate IsSpace(c: char) {
    c == ' ' || ('\t' <= c <= '\r') || ('\U{1C}' <= c <= '\U{1F}')
    || c == '\U{85}' || c == '\U{A0}' || c == '\U{1680}'
    || ('\U{2000}' <= c <= '\U{200A}') || c == '\U{2028}' || c == '\U{2029}'
    || c == '\U{202F}' || c == '\U{205F}' || c == '\U{3000}'
  }

  predicate StartsWith(s: string, prefix: string) {
    |prefix| <= |s| && s[..|prefix|] == prefix
  }

  predicate EndsWith(s: string, suffix: string) {
    |suffix| <= |s| && s[|s| - |suffix|..] == suffix
  }

  /** `sub` occurs in `s` starting at index `i`. */
  predicate OccursAt(s: string, sub: string, i: int) {
    0 <= i && i + |sub| <= |s| && s[i..i + |sub|] == sub
  }

  /** Python's `sub in s`. */
  predicate Contains(s: string, sub: string) {
    exists i :: 0 <= i <= |s| - |sub| && OccursAt(s, sub, i)
  }

  /** Removes the longest prefix of characters satisfying `drop`. */
  function LTrim(s: string, drop: char -> bool): (r: string)
    ensures |r| <= |s| && r == s[|s| - |r|..]
    ensures r == [] || !drop(r[0])
    ensures forall i :: 0 <= i < |s| - |r| ==> drop(s[i])
    decreases |s|
  {
    if |s| > 0 && drop(s[0]) then LTrim(s[1..], drop) else s
  }

  /** Removes the longest suffix of characters satisfying `drop`. */
  function RTrim(s: string, drop: char -> bool): (r: string)
    ensures |r| <= |s| && r == s[..|r|]
    ensures r == [] || !drop(r[|r| - 1])
    ensures forall i :: |r| <= i < |s| ==> drop(s[i])
    decreases |s|
  {
    if |s| > 0 && drop(s[|s| - 1]) then RTrim(s[..|s| - 1], drop) else s
  }

  /** Python's `s.strip()`: leading and trailing whitespace removed. */
  function Strip(s: string): (r: string)
    ensures |r| <= |s|
    ensures r == [] || (!IsSpace(r[0]) && !IsSpace(r[|r| - 1]))
    ensures exists i, j :: (
      && 0 <= i <= j <= |s| && r == s[i..j]
      && (forall k :: 0 <= k < i ==> IsSpace(s[k]))
      && (forall k :: j <= k < |s| ==> IsSpace(s[k])))
  {
    var r := RTrim(LTrim(s, IsSpace), IsSpace);
    TrimBoth(s, IsSpace, LTrim(s, IsSpace), r);
    r
  }

  /**
   * A suffix `l` of `s` and a prefix `r` of `l`, each cut only at characters
   * satisfying `drop`: `r` is a slice of `s` with only such characters around it.
   */
  lemma TrimBoth(s: string, drop: char -> bool, l: string, r: string)
    requires |l| <= |s| && l == s[|s| - |l|..] && forall k :: 0 <= k < |s| - |l| ==> drop(s[k])
    requires |r| <= |l| && r == l[..|r|] && forall k :: |r| <= k < |l| ==> drop(l[k])
    ensures exists i, j :: (
      && 0 <= i <= j <= |s| && r == s[i..j]
      && (forall k :: 0 <= k < i ==> drop(s[k]))
      && (forall k :: j <= k < |s| ==> drop(s[k])))
  {
    var i := |s| - |l|;
    var j := i + |r|;
    assert r == s[i..j];
    forall k | j <= k < |s| ensures drop(s[k]) {
      assert s[k] == l[k - i];
    }
  }

  /**
   * Python's `s.rstrip(chars)`: `chars` is a SET of characters, not a
   * suffix, so every trailing character that is in it goes.
   */
  function RStripChars(s: string, chars: string): (r: string)
    ensures |r| <= |s| && r == s[..|r|]
    ensures r == [] || r[|r| - 1] !in chars
    ensures forall i :: |r| <= i < |s| ==> s[i] in chars
  {
    RTrim(s, c => c in chars)
  }

  /** Python's `s.removesuffix(suffix)` (3.9 and later). */
  function RemoveSuffix(s: string, suffix: string): (r: string)
    ensures EndsWith(s, suffix) ==> r + suffix == s
    ensures !EndsWith(s, suffix) ==> r == s
  {
    if EndsWith(s, suffix) then s[..|s| - |suffix|] else s
  }

  /** Python's `s[n:]` for a non-negative `n`. */
  function Drop(s: string, n: nat): (r: string)
    ensures |s| <= n ==> r == []
    ensures n < |s| ==> |r| == |s| - n && s == s[..n] + r
  {
    if |s| <= n then [] else s[n..]
  }

  /**
   * Python's `s.split(sep)` for a non-empty separator: the pieces between
   * the occurrences of `sep` found scanning left to right.
   */
  function Split(s: string, sep: string): (parts: seq<string>)
    requires sep != []
    ensures |parts| >= 1
    decreases |s|
  {
    if |s| < |sep| then [s]
    else if s[..|sep|] == sep then [""] + Split(s[|sep|..], sep)
    else
      var rest := Split(s[1..], sep);
      [[s[0]] + rest[0]] + rest[1..]
  }

  /** Python's `sep.join(parts)`. */
  function Join(parts: seq<string>, sep: string): string
    decreases |parts|
  {
    if |parts| == 0 then ""
    else if |parts| == 1 then parts[0]
    else parts[0] + sep + Join(parts[1..], sep)
  }

  function Last(parts: seq<string>): string
    requires |parts| >= 1
  {
    parts[|parts| - 1]
  }

  /** Python's `s.replace(pattern, replacement)`: every non-overlapping occurrence, left to right. */
  function Replace(s: string, pattern: string, replacement: string): string
    requires pattern != []
    decreases |s|
  {
    if |s| < |pattern| then s
    else if s[..|pattern|] == pattern then replacement + Replace(s[|pattern|..], pattern, replacement)
    else [s[0]] + Replace(s[1..], pattern, replacement)
  }

  // ---------------------------------------------------------------------
  // Lemmas
  // ---------------------------------------------------------------------

  lemma ContainsChar(s: string, c: char)
    ensures Contains(s, [c]) <==> c in s
  {
    if c in s {
      var k :| 0 <= k < |s| && s[k] == c;
      assert OccursAt(s, [c], k);
    }
    if Contains(s, [c]) {
      var i :| 0 <= i <= |s| - 1 && OccursAt(s, [c], i);
      assert s[i] == s[i..i + 1][0];
    }
  }

  lemma JoinPrependChar(c: char, parts: seq<string>, sep: string)
    requires |parts| >= 1
    ensures Join([[c] + parts[0]] + parts[1..], sep) == [c] + Join(parts, sep)
  {
    var q := [[c] + parts[0]] + parts[1..];
    if |parts| > 1 {
      assert q[1..] == parts[1..];
    }
  }

  lemma {:induction false} JoinSnoc(parts: seq<string>, q: string, sep: string)
    requires |parts| >= 1
    ensures Join(parts + [q], sep) == Join(parts, sep) + sep + q
    decreases |parts|
  {
    if |parts| == 1 {
      assert parts + [q] == [parts[0], q];
    } else {
      assert (parts + [q])[1..] == parts[1..] + [q];
      JoinSnoc(parts[1..], q, sep);
    }
  }

  /** Joining the pieces of a split with the same separator restores the text. */
  lemma {:induction false} SplitJoin(s: string, sep: string)
    requires sep != []
    ensures Join(Split(s, sep), sep) == s
    decreases |s|
  {
    if |s| < |sep| {
    } else if s[..|sep|] == sep {
      var t := s[|sep|..];
      SplitJoin(t, sep);
      assert ([""] + Split(t, sep))[1..] == Split(t, sep);
      assert s == sep + t;
    } else {
      SplitJoin(s[1..], sep);
      JoinPrependChar(s[0], Split(s[1..], sep), sep);
      assert s == [s[0]] + s[1..];
    }
  }

  lemma NotContainsCons(c: char, t: string, sep: string)
    requires sep != []
    requires !Contains(t, sep) && !StartsWith([c] + t, sep)
    ensures !Contains([c] + t, sep)
  {
    var u := [c] + t;
    forall i | 0 <= i <= |u| - |sep| ensures !OccursAt(u, sep, i) {
      if i > 0 {
        assert u[i..i + |sep|] == t[i - 1..i - 1 + |sep|];
        assert !OccursAt(t, sep, i - 1);
      } else {
        assert u[..|sep|] == u[0..0 + |sep|];
      }
    }
  }

  /** No piece of a split contains the separator. */
  lemma {:induction false} SplitPiecesFree(s: string, sep: string)
    requires sep != []
    ensures forall k :: 0 <= k < |Split(s, sep)| ==> !Contains(Split(s, sep)[k], sep)
    decreases |s|
  {
    var parts := Split(s, sep);
    if |s| < |sep| {
      assert parts == [s];
    } else if s[..|sep|] == sep {
      SplitPiecesFree(s[|sep|..], sep);
      assert !Contains("", sep);
    } else {
      var rest := Split(s[1..], sep);
      SplitPiecesFree(s[1..], sep);
      SplitJoin(s[1..], sep);
      if |rest| > 1 {
        assert s[1..] == rest[0] + sep + Join(rest[1..], sep);
      }
      assert StartsWith(s[1..], rest[0]);
      var head := [s[0]] + rest[0];
      assert head == s[..|head|];
      if |sep| <= |head| {
        assert head[..|sep|] == s[..|sep|];
      }
      NotContainsCons(s[0], rest[0], sep);
      assert parts[0] == head;
      assert forall k :: 1 <= k < |parts| ==> parts[k] == rest[k];
    }
  }

  /** A split yields a single piece exactly when the separator does not occur. */
  lemma SplitSingleIff(s: string, sep: string)
    requires sep != []
    ensures |Split(s, sep)| == 1 <==> !Contains(s, sep)
  {
    var parts := Split(s, sep);
    SplitJoin(s, sep);
    SplitPiecesFree(s, sep);
    if |parts| > 1 {
      var p0 := parts[0];
      assert s == p0 + sep + Join(parts[1..], sep);
      assert s[|p0|..|p0| + |sep|] == sep;
      assert OccursAt(s, sep, |p0|);
    }
  }

  lemma SplitNoSep(s: string, sep: string)
    requires sep != [] && !Contains(s, sep)
    ensures Split(s, sep) == [s]
  {
    SplitSingleIff(s, sep);
    SplitJoin(s, sep);
  }

  /** Splitting on a character that does not occur gives the text back whole. */
  lemma SplitCharAbsent(s: string, c: char)
    requires c !in s
    ensures Split(s, [c]) == [s]
  {
    ContainsChar(s, c);
    SplitNoSep(s, [c]);
  }

  /**
   * `s.split(sep)[-1]` is the text after the last occurrence of `sep`: a
   * suffix of `s` free of `sep`, preceded by `sep` when `sep` occurs at all
   * and equal to `s` when it does not.
   */
  lemma AfterLast(s: string, sep: string)
    requires sep != []
    ensures var last := Last(Split(s, sep));
      && EndsWith(s, last)
      && !Contains(last, sep)
      && (Contains(s, sep) ==> EndsWith(s, sep + last))
      && (!Contains(s, sep) ==> last == s)
  {
    var parts := Split(s, sep);
    LastPieceFree(s, sep);
    SplitSingleIff(s, sep);
    if |parts| > 1 {
      LastPiecePreceded(s, sep);
    } else {
      SplitJoin(s, sep);
    }
  }

  lemma LastPieceFree(s: string, sep: string)
    requires sep != []
    ensures !Contains(Last(Split(s, sep)), sep)
  {
    SplitPiecesFree(s, sep);
  }

  lemma LastPiecePreceded(s: string, sep: string)
    requires sep != [] && |Split(s, sep)| > 1
    ensures EndsWith(s, sep + Last(Split(s, sep)))
    ensures EndsWith(s, Last(Split(s, sep)))
  {
    SplitJoin(s, sep);
    JoinEndsWithLast(Split(s, sep), sep);
  }

  /** A join of two or more pieces ends with the separator and the last piece. */
  lemma JoinEndsWithLast(parts: seq<string>, sep: string)
    requires |parts| > 1
    ensures EndsWith(Join(parts, sep), sep + parts[|parts| - 1])
    ensures EndsWith(Join(parts, sep), parts[|parts| - 1])
  {
    var n := |parts|;
    var init, last := parts[..n - 1], parts[n - 1];
    assert parts == init + [last];
    JoinSnoc(init, last, sep);
    var front := Join(init, sep);
    assert front + sep + last == front + (sep + last);
    EndsWithAppend(front, sep + last);
    EndsWithAppend(front + sep, last);
  }

  lemma EndsWithAppend(front: string, tail: string)
    ensures EndsWith(front + tail, tail)
  {
    assert (front + tail)[|front|..] == tail;
  }

  /** One step of splitting on a single character `c`, from the front. */
  lemma SplitCharStep(d: char, t: string, c: char)
    ensures d == c ==> Split([d] + t, [c]) == [""] + Split(t, [c])
    ensures d != c ==> Split([d] + t, [c]) == [[d] + Split(t, [c])[0]] + Split(t, [c])[1..]
  {
    var s := [d] + t;
    assert s[..1] == [d];
    assert s[1..] == t;
  }

  /** Splitting on one character cuts at every occurrence of it. */
  lemma {:induction false} SplitAtChar(x: string, c: char, y: string)
    ensures Split(x + [c] + y, [c]) == Split(x, [c]) + Split(y, [c])
    decreases |x|
  {
    if x == [] {
      assert x + [c] + y == [c] + y;
      SplitCharStep(c, y, c);
      assert Split(x, [c]) == [""];
    } else {
      var d, x' := x[0], x[1..];
      assert x == [d] + x';
      assert x + [c] + y == [d] + (x' + [c] + y);
      SplitAtChar(x', c, y);
      SplitCharStep(d, x' + [c] + y, c);
      SplitCharStep(d, x', c);
      if d != c {
        GlueFirstPiece(d, Split(x', [c]), Split(y, [c]));
      }
    }
  }

  /** Splitting at the only occurrence of a character gives the text before it and the text after it. */
  lemma SplitSoleChar(x: string, c: char, y: string)
    requires c !in x && c !in y
    ensures Split(x + [c] + y, [c]) == [x, y]
  {
    SplitAtChar(x, c, y);
    SplitCharAbsent(x, c);
    SplitCharAbsent(y, c);
  }

  /** Gluing a character onto the first piece commutes with appending more pieces. */
  lemma GlueFirstPiece(d: char, rx: seq<string>, ry: seq<string>)
    requires |rx| >= 1
    ensures [[d] + (rx + ry)[0]] + (rx + ry)[1..] == ([[d] + rx[0]] + rx[1..]) + ry
  {
    assert (rx + ry)[0] == rx[0];
    assert (rx + ry)[1..] == rx[1..] + ry;
  }

  /** A separator whose first character is absent from `x` is first found right after `x`. */
  lemma {:induction false} SplitAfterLead(x: string, sep: string, y: string)
    requires sep != [] && sep[0] !in x
    ensures Split(x + sep + y, sep) == [x] + Split(y, sep)
    decreases |x|
  {
    var s := x + sep + y;
    if x == [] {
      assert s[..|sep|] == sep;
      assert s[|sep|..] == y;
    } else {
      assert s[..|sep|][0] == x[0];
      assert s[1..] == x[1..] + sep + y;
      SplitAfterLead(x[1..], sep, y);
      assert [x[0]] + x[1..] == x;
    }
  }

  /** `s.replace(p, r)` is `r.join(s.split(p))`. */
  lemma {:induction false} ReplaceIsJoinOfSplit(s: string, pattern: string, replacement: string)
    requires pattern != []
    ensures Replace(s, pattern, replacement) == Join(Split(s, pattern), replacement)
    decreases |s|
  {
    if |s| < |pattern| {
    } else if s[..|pattern|] == pattern {
      var t := s[|pattern|..];
      ReplaceIsJoinOfSplit(t, pattern, replacement);
      assert ([""] + Split(t, pattern))[1..] == Split(t, pattern);
    } else {
      ReplaceIsJoinOfSplit(s[1..], pattern, replacement);
      JoinPrependChar(s[0], Split(s[1..], pattern), replacement);
    }
  }

  /** Trimming stops at a kept character: what lies before it is untouched. */
  lemma {:induction false} RTrimKeepsFront(x: string, y: string, drop: char -> bool)
    requires |x| > 0 && !drop(x[|x| - 1])
    ensures RTrim(x + y, drop) == x + RTrim(y, drop)
    decreases |y|
  {
    if |y| > 0 && drop(y[|y| - 1]) {
      assert (x + y)[..|x + y| - 1] == x + y[..|y| - 1];
      RTrimKeepsFront(x, y[..|y| - 1], drop);
    } else if |y| == 0 {
      assert x + y == x;
    }
  }

  /** Trailing characters that are all dropped do not change the trimmed result. */
  lemma {:induction false} RTrimDroppedTail(x: string, z: string, drop: char -> bool)
    requires forall i :: 0 <= i < |z| ==> drop(z[i])
    ensures RTrim(x + z, drop) == RTrim(x, drop)
    decreases |z|
  {
    if |z| > 0 {
      assert (x + z)[..|x + z| - 1] == x + z[..|z| - 1];
      RTrimDroppedTail(x, z[..|z| - 1], drop);
    } else {
      assert x + z == x;
    }
  }

  lemma StripUnchanged(s: string)
    requires |s| > 0 && !IsSpace(s[0]) && !IsSpace(s[|s| - 1])
    ensures Strip(s) == s
  {
  }
}
