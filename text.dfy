/**
 * The string primitives the paragraph segmenter is built from, restricted to
 * ASCII: `String.prototype.trim`, `split(/\r?\n/)`, `Array.prototype.join`
 * and `String.prototype.toUpperCase`.
 */
module Text {

  /** ASCII white space: tab, line feed, vertical tab, form feed, carriage return and space. */
  predicate IsSpace(c: char) {
    c == ' ' || ('\t' <= c <= '\r')
  }

  predicate AllSpace(s: string) {
    forall i :: 0 <= i < |s| ==> IsSpace(s[i])
  }

  /** No white space at either end; the empty string is trimmed. */
  predicate Trimmed(s: string) {
    s == [] || (!IsSpace(s[0]) && !IsSpace(s[|s| - 1]))
  }

  /** Drops the longest all-space prefix. */
  function TrimStart(s: string): (r: string)
    ensures |r| <= |s| && r == s[|s| - |r|..]
    ensures r == [] || !IsSpace(r[0])
    ensures AllSpace(s[..|s| - |r|])
    decreases |s|
  {
    if s != [] && IsSpace(s[0]) then
      var r := TrimStart(s[1..]);
      assert s[..|s| - |r|] == [s[0]] + s[1..][..|s| - 1 - |r|];
      r
    else s
  }

  /** Drops the longest all-space suffix. */
  function TrimEnd(s: string): (r: string)
    ensures |r| <= |s| && r == s[..|r|]
    ensures r == [] || !IsSpace(r[|r| - 1])
    ensures AllSpace(s[|r|..])
    decreases |s|
  {
    if s != [] && IsSpace(s[|s| - 1]) then
      var r := TrimEnd(s[..|s| - 1]);
      assert s[|r|..] == s[..|s| - 1][|r|..] + [s[|s| - 1]];
      r
    else s
  }

  /** `r` is the slice `s[a..b]`, and `s` holds only white space outside it. */
  predicate StrippedTo(s: string, r: string, a: int, b: int) {
    0 <= a <= b <= |s| && r == s[a..b] && AllSpace(s[..a]) && AllSpace(s[b..])
  }

  /**
   * Dropping white space from the front of `s`, then from the back of what
   * is left, keeps one slice of `s` with white space only around it.
   */
  lemma StripBoth(s: string, t: string, r: string, a: nat)
    requires a <= |s| && t == s[a..] && AllSpace(s[..a])
    requires |r| <= |t| && r == t[..|r|] && AllSpace(t[|r|..])
    ensures StrippedTo(s, r, a, a + |r|)
  {
    var b := a + |r|;
    assert r == s[a..b];
    assert s[b..] == t[|r|..];
  }

  /** `s.trim()`: the part of `s` left after stripping white space from both ends. */
  function Trim(s: string): (r: string)
    ensures Trimmed(r)
    ensures r == [] <==> AllSpace(s)
    ensures forall c :: c in r ==> c in s
    ensures Trimmed(s) ==> r == s
    ensures exists a, b :: StrippedTo(s, r, a, b)
  {
    var t := TrimStart(s);
    var r := TrimEnd(t);
    StripBoth(s, t, r, |s| - |t|);
    assert r == [] ==> AllSpace(s) by {
      if r == [] {
        assert AllSpace(t);
        assert s == s[..|s| - |t|] + t;
      }
    }
    r
  }

  /**
   * `s.split(/\r?\n/)`: the pieces of `s` between line breaks, where a line
   * break is a line feed together with one carriage return right before it,
   * if there is one. The empty string gives one empty line.
   */
  function Split(s: string): (lines: seq<string>)
    ensures |lines| >= 1
    ensures forall i :: 0 <= i < |lines| ==> '\n' !in lines[i]
    ensures forall i, c :: 0 <= i < |lines| && c in lines[i] ==> c in s
    decreases |s|
  {
    if s == [] then [""]
    else if s[0] == '\n' then
      assert forall c :: c in s[1..] ==> c in s;
      [""] + Split(s[1..])
    else if s[0] == '\r' && |s| > 1 && s[1] == '\n' then
      assert forall c :: c in s[2..] ==> c in s;
      [""] + Split(s[2..])
    else
      var rest := Split(s[1..]);
      assert forall c :: c in s[1..] ==> c in s;
      [[s[0]] + rest[0]] + rest[1..]
  }

  /** `parts.join(sep)`. */
  function Join(parts: seq<string>, sep: string): string
  {
    if |parts| == 0 then ""
    else if |parts| == 1 then parts[0]
    else parts[0] + sep + Join(parts[1..], sep)
  }

  /** Joining one more part adds the separator and that part at the end. */
  lemma {:induction false} JoinSnoc(parts: seq<string>, sep: string, x: string)
    requires |parts| >= 1
    ensures Join(parts + [x], sep) == Join(parts, sep) + sep + x
    decreases |parts|
  {
    if |parts| > 1 {
      JoinSnoc(parts[1..], sep, x);
      assert (parts + [x])[1..] == parts[1..] + [x];
    }
  }

  /** Parts whose first part is not empty join to a non-empty string. */
  lemma JoinNonEmpty(parts: seq<string>, sep: string)
    requires parts != [] && parts[0] != ""
    ensures Join(parts, sep) != ""
  {
    if |parts| > 1 {
      assert Join(parts, sep) == parts[0] + sep + Join(parts[1..], sep);
    }
  }

  /** A line that the line-break pattern cannot reach into: no line feed, no carriage return at its end. */
  predicate IsLine(s: string) {
    '\n' !in s && (s == [] || s[|s| - 1] != '\r')
  }

  /** Joining the pieces of a text without carriage returns with line feeds gives the text back. */
  lemma {:induction false} JoinSplit(s: string)
    requires '\r' !in s
    ensures Join(Split(s), "\n") == s
    decreases |s|
  {
    if s == [] {
    } else if s[0] == '\n' {
      JoinSplit(s[1..]);
      assert s == "\n" + s[1..];
    } else {
      JoinSplit(s[1..]);
      var rest := Split(s[1..]);
      assert s == [s[0]] + s[1..];
      if |rest| > 1 {
        assert ([[s[0]] + rest[0]] + rest[1..])[1..] == rest[1..];
      }
    }
  }

  /** Splitting a line followed by a line feed and more text yields that line first. */
  lemma {:induction false} SplitAfterLine(line: string, s: string)
    requires IsLine(line)
    ensures Split(line + "\n" + s) == [line] + Split(s)
    decreases |line|
  {
    var t := line + "\n" + s;
    if line == [] {
      assert t == "\n" + s;
      assert t[1..] == s;
    } else {
      var tail := line[1..];
      assert IsLine(tail) by {
        if tail != [] {
          assert tail[|tail| - 1] == line[|line| - 1];
        }
        assert forall c :: c in tail ==> c in line;
      }
      SplitAfterLine(tail, s);
      assert t[1..] == tail + "\n" + s;
      assert t[0] == line[0] && t[0] != '\n';
      assert t[0] == '\r' ==> t[1] != '\n' by {
        if t[0] == '\r' {
          assert tail != [];
          assert t[1] == tail[0] && tail[0] in tail;
        }
      }
      assert [t[0]] + tail == line;
    }
  }

  /**
   * A carriage return right before a line feed belongs to the line break:
   * a line followed by `"\r\n"` and more text splits off without the
   * carriage return.
   */
  lemma {:induction false} SplitAfterCrLf(line: string, s: string)
    requires '\n' !in line
    ensures Split(line + "\r\n" + s) == [line] + Split(s)
    decreases |line|
  {
    var t := line + "\r\n" + s;
    if line == [] {
      assert t == "\r\n" + s;
      assert t[2..] == s;
    } else {
      var tail := line[1..];
      assert forall c :: c in tail ==> c in line;
      SplitAfterCrLf(tail, s);
      assert t[1..] == tail + "\r\n" + s;
      assert t[0] == line[0] && t[0] != '\n';
      assert t[0] == '\r' ==> t[1] != '\n' by {
        if tail != [] {
          assert t[1] == tail[0] && tail[0] in tail;
        } else {
          assert t[1] == '\r';
        }
      }
      assert [t[0]] + tail == line;
    }
  }

  /** The text with every carriage return that stands right before a line feed removed. */
  function CrLfToLf(s: string): string
    decreases |s|
  {
    if s == [] then []
    else if s[0] == '\r' && |s| > 1 && s[1] == '\n' then "\n" + CrLfToLf(s[2..])
    else [s[0]] + CrLfToLf(s[1..])
  }

  /**
   * For every text, joining its pieces with line feeds gives the text back
   * with each `"\r\n"` turned into `"\n"`: the line breaks are exactly the
   * line feeds, each with the carriage return right before it.
   */
  lemma {:induction false} JoinSplitNormalizes(s: string)
    ensures Join(Split(s), "\n") == CrLfToLf(s)
    decreases |s|
  {
    if s == [] {
    } else if s[0] == '\n' {
      JoinSplitNormalizes(s[1..]);
    } else if s[0] == '\r' && |s| > 1 && s[1] == '\n' {
      JoinSplitNormalizes(s[2..]);
    } else {
      JoinSplitNormalizes(s[1..]);
      var rest := Split(s[1..]);
      if |rest| > 1 {
        assert ([[s[0]] + rest[0]] + rest[1..])[1..] == rest[1..];
      }
    }
  }

  /** Splitting a join of lines with line feeds gives the lines back. */
  lemma {:induction false} SplitJoin(parts: seq<string>)
    requires |parts| >= 1
    requires forall i :: 0 <= i < |parts| ==> IsLine(parts[i])
    ensures Split(Join(parts, "\n")) == parts
    decreases |parts|
  {
    if |parts| == 1 {
      SplitWithoutLineFeed(parts[0]);
    } else {
      SplitJoin(parts[1..]);
      SplitAfterLine(parts[0], Join(parts[1..], "\n"));
      assert parts == [parts[0]] + parts[1..];
    }
  }

  /** A text without line feeds is one line. */
  lemma {:induction false} SplitWithoutLineFeed(s: string)
    requires '\n' !in s
    ensures Split(s) == [s]
    decreases |s|
  {
    if s != [] {
      var tail := s[1..];
      assert forall c :: c in tail ==> c in s;
      SplitWithoutLineFeed(tail);
      assert s[0] == '\r' && |s| > 1 ==> s[1] != '\n' by {
        if s[0] == '\r' && |s| > 1 {
          assert s[1] in s;
        }
      }
      assert [s[0]] + tail == s;
    }
  }

  /** The lines of `parts` with an empty line between each two of them. */
  function Spaced(parts: seq<string>): (r: seq<string>)
  {
    if |parts| <= 1 then parts else [parts[0]] + [""] + Spaced(parts[1..])
  }

  /** `parts.join('\n\n')` is the join of `Spaced(parts)` with single line feeds. */
  lemma {:induction false} JoinSpaced(parts: seq<string>)
    ensures Join(parts, "\n\n") == Join(Spaced(parts), "\n")
    ensures |parts| >= 1 ==> |Spaced(parts)| >= 1
    decreases |parts|
  {
    if |parts| > 1 {
      JoinSpaced(parts[1..]);
      var rest := Spaced(parts[1..]);
      var sp := [parts[0]] + [""] + rest;
      assert sp[1..] == [""] + rest;
      assert ([""] + rest)[1..] == rest;
    }
  }

  predicate IsLower(c: char) {
    'a' <= c <= 'z'
  }

  function ToUpperChar(c: char): char {
    if IsLower(c) then (c as int - 32) as char else c
  }

  /** `s.toUpperCase()` for ASCII letters; every other character is left as it is. */
  function ToUpper(s: string): (r: string)
  {
    seq(|s|, i requires 0 <= i < |s| => ToUpperChar(s[i]))
  }

  /** A string equals its upper-case form exactly when it holds no lower-case letter. */
  lemma UpperFixedIffNoLower(s: string)
    ensures s == ToUpper(s) <==> forall i :: 0 <= i < |s| ==> !IsLower(s[i])
  {
    if forall i :: 0 <= i < |s| ==> !IsLower(s[i]) {
      assert forall i :: 0 <= i < |s| ==> ToUpper(s)[i] == s[i];
    }
    if s == ToUpper(s) {
      forall i | 0 <= i < |s| ensures !IsLower(s[i]) {
        assert ToUpper(s)[i] == ToUpperChar(s[i]);
      }
    }
  }
}
