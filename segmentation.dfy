/**
 * `splitTextIntoParagraphs`: the text is split into lines, each line is
 * trimmed, and one pass over the lines sorts each into a blank line, a
 * marker line, a heading or a continuation line, feeding an accumulator for
 * the current paragraph and an append-only list of finished paragraphs.
 */
module Segmentation {
  import opened Text

  predicate IsDigit(c: char) {
    '0' <= c <= '9'
  }

  /** `\w`: an ASCII letter, a digit or the underscore. */
  predicate IsWordChar(c: char) {
    'A' <= c <= 'Z' || 'a' <= c <= 'z' || IsDigit(c) || c == '_'
  }

  predicate AllDigits(s: string) {
    forall j :: 0 <= j < |s| ==> IsDigit(s[j])
  }

  /** Digits fill `line[..k]`, at least one of them, and a full stop follows at `k`. */
  predicate NumberDotAt(line: string, k: int) {
    1 <= k < |line| && line[k] == '.' && AllDigits(line[..k])
  }

  /** `^\d+\.`: the line opens with one or more digits and a full stop. */
  predicate StartsWithNumberDot(line: string) {
    exists k :: 0 <= k < |line| && NumberDotAt(line, k)
  }

  /** A word character at `i`, a full stop right after it. */
  predicate WordDotAt(line: string, i: int) {
    0 <= i && i + 1 < |line| && IsWordChar(line[i]) && line[i + 1] == '.'
  }

  /** `\w\.`: somewhere in the line a word character is followed by a full stop. */
  predicate HasWordDot(line: string) {
    exists i :: 0 <= i < |line| && WordDotAt(line, i)
  }

  /** The marker test `/^\d+\.|\w\./.test(line)`, one predicate per alternative. */
  predicate IsMarker(line: string) {
    StartsWithNumberDot(line) || HasWordDot(line)
  }

  /**
   * The second alternative is not anchored, so it subsumes the first: a line
   * is a marker exactly when a word character is followed by a full stop in it.
   */
  lemma MarkerIsWordDot(line: string)
    ensures IsMarker(line) <==> HasWordDot(line)
  {
    if StartsWithNumberDot(line) {
      var k :| 0 <= k < |line| && NumberDotAt(line, k);
      assert IsDigit(line[..k][k - 1]);
      assert WordDotAt(line, k - 1);
    }
  }

  /** `line === line.toUpperCase() && line.length > 3`. */
  predicate IsHeading(line: string) {
    line == ToUpper(line) && |line| > 3
  }

  /** A line of four or more characters is a heading exactly when it has no lower-case ASCII letter. */
  lemma HeadingIffNoLower(line: string)
    ensures IsHeading(line) <==> |line| > 3 && forall i :: 0 <= i < |line| ==> !IsLower(line[i])
  {
    UpperFixedIffNoLower(line);
  }

  datatype Kind = Blank | Marker | Heading | Continuation

  /** The first of the four rules that applies to a trimmed line. */
  function Classify(line: string): Kind {
    if line == "" then Blank
    else if IsMarker(line) then Marker
    else if IsHeading(line) then Heading
    else Continuation
  }

  /** The scan's state: `currentParagraph` and `paragraphs`. */
  datatype State = State(current: string, paragraphs: seq<string>)

  const Start := State("", [])

  /** The paragraphs with the accumulator pushed, unless it is empty. */
  function Flush(st: State): seq<string> {
    if st.current != "" then st.paragraphs + [st.current] else st.paragraphs
  }

  /** One iteration of the loop over the lines. */
  function Step(st: State, line: string): State {
    match Classify(line)
    case Blank => State("", Flush(st))
    case Marker => State(line, Flush(st))
    case Heading => State("", Flush(st) + [line])
    case Continuation => State(st.current + (if st.current != "" then " " else "") + line, st.paragraphs)
  }

  /** The state after the loop has run over `lines` from `st`. */
  function RunFrom(st: State, lines: seq<string>): State
    decreases |lines|
  {
    if lines == [] then st else Step(RunFrom(st, lines[..|lines| - 1]), lines[|lines| - 1])
  }

  /** The paragraph list for a sequence of already trimmed lines. */
  function Segment(lines: seq<string>): seq<string> {
    Flush(RunFrom(Start, lines))
  }

  /** `text.split(/\r?\n/).map(line => line.trim())`. */
  function Lines(text: string): (lines: seq<string>)
    ensures |lines| >= 1
    ensures forall i :: 0 <= i < |lines| ==> Trimmed(lines[i]) && '\n' !in lines[i]
  {
    var parts := Split(text);
    seq(|parts|, i requires 0 <= i < |parts| => Trim(parts[i]))
  }

  /** The value `splitTextIntoParagraphs(text)` returns. */
  function Paragraphs(text: string): seq<string> {
    Segment(Lines(text))
  }

  /** `paragraphs.join('\n\n')`, the formatted text sent back beside the list. */
  function FormattedText(paragraphs: seq<string>): string {
    Join(paragraphs, "\n\n")
  }

  // ---------------------------------------------------------------- the loop

  /**
   * `splitTextIntoParagraphs`: the loop over the trimmed lines, then the
   * final push of a non-empty accumulator.
   */
  method SplitTextIntoParagraphs(text: string) returns (paragraphs: seq<string>)
    ensures paragraphs == Paragraphs(text)
    ensures forall i :: 0 <= i < |paragraphs| ==> Clean(paragraphs[i])
    ensures AllSpace(text) ==> paragraphs == []
  {
    var lines := Lines(text);
    paragraphs := [];
    var current := "";
    for i := 0 to |lines|
      invariant State(current, paragraphs) == RunFrom(Start, lines[..i])
    {
      var line := lines[i];
      assert lines[..i + 1][..i] == lines[..i];
      ghost var next := Step(State(current, paragraphs), line);
      assert RunFrom(Start, lines[..i + 1]) == next;
      if line == "" {
        if current != "" {
          paragraphs := paragraphs + [current];
          current := "";
        }
      } else if IsMarker(line) {
        if current != "" {
          paragraphs := paragraphs + [current];
        }
        current := line;
      } else if line == ToUpper(line) && |line| > 3 {
        if current != "" {
          paragraphs := paragraphs + [current];
        }
        paragraphs := paragraphs + [line];
        current := "";
      } else {
        current := current + (if current != "" then " " else "") + line;
      }
      assert State(current, paragraphs) == next;
    }
    assert lines[..|lines|] == lines;
    if current != "" {
      paragraphs := paragraphs + [current];
    }
    ParagraphsAreClean(text);
    if AllSpace(text) {
      BlankTextNoParagraphs(text);
    }
  }

  // ------------------------------------------------- shape of the paragraphs

  /** A paragraph as the segmenter emits it: non-empty, trimmed, on one line. */
  predicate Clean(p: string) {
    p != "" && Trimmed(p) && '\n' !in p
  }

  predicate AllClean(ps: seq<string>) {
    forall i :: 0 <= i < |ps| ==> Clean(ps[i])
  }

  predicate CleanState(st: State) {
    (st.current == "" || Clean(st.current)) && AllClean(st.paragraphs)
  }

  lemma StepKeepsClean(st: State, line: string)
    requires CleanState(st)
    requires Trimmed(line) && '\n' !in line
    ensures CleanState(Step(st, line))
  {
    if Classify(line) == Continuation && st.current != "" {
      var c := st.current + " " + line;
      assert c[0] == st.current[0];
      assert c[|c| - 1] == line[|line| - 1];
    }
  }

  lemma {:induction false} RunKeepsClean(st: State, lines: seq<string>)
    requires CleanState(st)
    requires forall i :: 0 <= i < |lines| ==> Trimmed(lines[i]) && '\n' !in lines[i]
    ensures CleanState(RunFrom(st, lines))
    decreases |lines|
  {
    if lines != [] {
      var init := lines[..|lines| - 1];
      assert forall i :: 0 <= i < |init| ==> init[i] == lines[i];
      RunKeepsClean(st, init);
      StepKeepsClean(RunFrom(st, init), lines[|lines| - 1]);
    }
  }

  /** Every paragraph is non-empty, has no white space at either end and holds no line feed. */
  lemma ParagraphsAreClean(text: string)
    ensures AllClean(Paragraphs(text))
  {
    RunKeepsClean(Start, Lines(text));
  }

  lemma {:induction false} BlankLinesKeepStart(lines: seq<string>)
    requires forall i :: 0 <= i < |lines| ==> lines[i] == ""
    ensures RunFrom(Start, lines) == Start
    decreases |lines|
  {
    if lines != [] {
      BlankLinesKeepStart(lines[..|lines| - 1]);
    }
  }

  /** The empty text, and every text of white space and line breaks only, has no paragraphs. */
  lemma BlankTextNoParagraphs(text: string)
    requires AllSpace(text)
    ensures Paragraphs(text) == []
  {
    var parts := Split(text);
    var lines := Lines(text);
    forall i | 0 <= i < |lines| ensures lines[i] == "" {
      assert lines[i] == Trim(parts[i]);
      forall k | 0 <= k < |parts[i]| ensures IsSpace(parts[i][k]) {
        assert parts[i][k] in parts[i];
        assert parts[i][k] in text;
        var j :| 0 <= j < |text| && text[j] == parts[i][k];
      }
    }
    BlankLinesKeepStart(lines);
  }

  // ------------------------------------------------- composing the scan

  /** `st` with `ps` put in front of its finished paragraphs. */
  function Behind(ps: seq<string>, st: State): State {
    State(st.current, ps + st.paragraphs)
  }

  lemma StepBehind(ps: seq<string>, st: State, line: string)
    ensures Step(Behind(ps, st), line) == Behind(ps, Step(st, line))
  {
    assert ps + st.paragraphs + [st.current] == ps + (st.paragraphs + [st.current]);
    assert ps + Flush(st) + [line] == ps + (Flush(st) + [line]);
  }

  /** Paragraphs already pushed are never touched again. */
  lemma {:induction false} RunBehind(ps: seq<string>, st: State, lines: seq<string>)
    ensures RunFrom(Behind(ps, st), lines) == Behind(ps, RunFrom(st, lines))
    decreases |lines|
  {
    if lines != [] {
      RunBehind(ps, st, lines[..|lines| - 1]);
      StepBehind(ps, RunFrom(st, lines[..|lines| - 1]), lines[|lines| - 1]);
    }
  }

  /** The scan over `a + b` is the scan over `b` from where the scan over `a` stopped. */
  lemma {:induction false} RunAppend(st: State, a: seq<string>, b: seq<string>)
    ensures RunFrom(st, a + b) == RunFrom(RunFrom(st, a), b)
    decreases |b|
  {
    if b == [] {
      assert a + b == a;
    } else {
      RunAppend(st, a, b[..|b| - 1]);
      assert (a + b)[..|a + b| - 1] == a + b[..|b| - 1];
    }
  }

  /**
   * A blank line is a hard paragraph boundary: the lines before it and the
   * lines after it are segmented independently.
   */
  lemma BlankLineSeparates(a: seq<string>, b: seq<string>)
    ensures Segment(a + [""] + b) == Segment(a) + Segment(b)
  {
    RunAppend(Start, a + [""], b);
    assert (a + [""])[..|a|] == a;
    assert RunFrom(Start, a + [""]) == Behind(Segment(a), Start);
    RunBehind(Segment(a), Start, b);
  }

  /** A run of one or more blank lines is a hard paragraph boundary too. */
  lemma {:induction false} BlankRunSeparates(a: seq<string>, n: nat, b: seq<string>)
    requires n >= 1
    ensures Segment(a + Blanks(n) + b) == Segment(a) + Segment(b)
    decreases n
  {
    if n == 1 {
      BlanksRegroup(a, n, b);
      BlankLineSeparates(a, b);
    } else {
      var rest := Blanks(n - 1) + b;
      BlanksRegroup(a, n, b);
      BlankLineSeparates(a, rest);
      assert Segment(rest) == Segment(b) by {
        BlankRunSeparates([], n - 1, b);
        BlanksRegroup([], n - 1, b);
        NoLinesNoParagraphs();
      }
    }
  }

  lemma BlanksRegroup(a: seq<string>, n: nat, b: seq<string>)
    requires n >= 1
    ensures a + Blanks(n) + b == a + [""] + (Blanks(n - 1) + b)
    ensures [] + Blanks(n) + b == Blanks(n) + b
    ensures n == 1 ==> a + Blanks(n) + b == a + [""] + b
  {
    assert Blanks(n) == [""] + Blanks(n - 1);
  }

  lemma NoLinesNoParagraphs()
    ensures Segment([]) == []
  {
  }

  /** Any run of one or more blank lines behaves like a single blank line. */
  lemma BlankRunIsOneBlank(a: seq<string>, n: nat, b: seq<string>)
    requires n >= 1
    ensures Segment(a + Blanks(n) + b) == Segment(a + [""] + b)
  {
    BlankRunSeparates(a, n, b);
    BlankLineSeparates(a, b);
  }

  /** `n` blank lines. */
  function Blanks(n: nat): (r: seq<string>)
    ensures |r| == n && forall i :: 0 <= i < n ==> r[i] == ""
  {
    if n == 0 then [] else [""] + Blanks(n - 1)
  }

  /**
   * Heading isolation: a line that falls to the heading rule is a paragraph
   * of its own, never merged with the lines before or after it.
   */
  lemma HeadingStandsAlone(a: seq<string>, line: string, b: seq<string>)
    requires Classify(line) == Heading
    ensures Segment(a + [line] + b) == Segment(a) + [line] + Segment(b)
  {
    RunAppend(Start, a + [line], b);
    assert (a + [line])[..|a|] == a;
    assert RunFrom(Start, a + [line]) == Behind(Segment(a) + [line], Start);
    RunBehind(Segment(a) + [line], Start, b);
  }

  /**
   * A marker line flushes the paragraph in progress and opens a new one that
   * begins with it; the following lines may still extend that paragraph.
   */
  lemma MarkerOpensParagraph(a: seq<string>, line: string, b: seq<string>)
    requires Classify(line) == Marker
    ensures Segment(a + [line] + b) == Segment(a) + Segment([line] + b)
    ensures Segment([line] + b) != [] && line <= Segment([line] + b)[0]
  {
    RunAppend(Start, a + [line], b);
    assert (a + [line])[..|a|] == a;
    assert RunFrom(Start, a + [line]) == Behind(Segment(a), State(line, []));
    RunBehind(Segment(a), State(line, []), b);
    RunAppend(Start, [line], b);
    assert [line][..0] == [];
    OpenedParagraphKeepsHead(line, b);
  }

  /** While the paragraph opened by `head` is pending it starts with `head`; once pushed, it stays first. */
  lemma {:induction false} OpenedParagraphKeepsHead(head: string, lines: seq<string>)
    requires head != ""
    ensures var st := RunFrom(State(head, []), lines);
      (st.paragraphs == [] ==> head <= st.current) &&
      (st.paragraphs != [] ==> head <= st.paragraphs[0])
    ensures Flush(RunFrom(State(head, []), lines)) != []
    ensures head <= Flush(RunFrom(State(head, []), lines))[0]
    decreases |lines|
  {
    if lines != [] {
      var init := lines[..|lines| - 1];
      OpenedParagraphKeepsHead(head, init);
      var st := RunFrom(State(head, []), init);
      var line := lines[|lines| - 1];
      if st.paragraphs == [] && Classify(line) == Continuation {
        var c := st.current + " " + line;
        assert c[..|st.current|] == st.current;
      }
    }
  }

  /** A single non-blank line is a paragraph of its own. */
  lemma SingleLine(line: string)
    requires line != ""
    ensures Segment([line]) == [line]
  {
    assert [line][..0] == [];
    assert RunFrom(Start, [line]) == Step(Start, line);
    if Classify(line) == Continuation {
      assert "" + "" + line == line;
    }
  }

  // ------------------------------------------------- idempotence

  /** Re-segmenting lines that are already paragraphs, blank-line separated, gives them back. */
  lemma {:induction false} SegmentSpaced(ps: seq<string>)
    requires forall i :: 0 <= i < |ps| ==> ps[i] != ""
    ensures Segment(Spaced(ps)) == ps
    decreases |ps|
  {
    if |ps| == 0 {
      assert Segment([]) == [];
    } else if |ps| == 1 {
      SingleLine(ps[0]);
    } else {
      var head, tail := ps[0], ps[1..];
      SegmentSpaced(tail);
      SingleLine(head);
      BlankLineSeparates([head], Spaced(tail));
      assert ps == [head] + tail;
    }
  }

  /**
   * Segmenting a formatted text (paragraphs joined by blank lines) gives the
   * same paragraph list, whenever the paragraphs are clean.
   */
  lemma FormattedTextRoundTrip(ps: seq<string>)
    requires AllClean(ps)
    ensures Paragraphs(FormattedText(ps)) == ps
  {
    if ps == [] {
      assert FormattedText(ps) == "";
      LinesOfTrimmedLines("", [""]);
      NoLinesNoParagraphs();
      assert [""] == [] + [""] + [];
      BlankLineSeparates([], []);
    } else {
      JoinSpaced(ps);
      SpacedAreLines(ps);
      SplitJoin(Spaced(ps));
      LinesOfTrimmedLines(FormattedText(ps), Spaced(ps));
      SegmentSpaced(ps);
    }
  }

  /** When the pieces of a text are already trimmed, they are its lines. */
  lemma LinesOfTrimmedLines(text: string, parts: seq<string>)
    requires Split(text) == parts
    requires forall i :: 0 <= i < |parts| ==> Trimmed(parts[i])
    ensures Lines(text) == parts
  {
  }

  /** The lines of `Spaced(ps)` are trimmed lines without line feeds, empty or a paragraph of `ps`. */
  lemma {:induction false} SpacedAreLines(ps: seq<string>)
    requires AllClean(ps)
    ensures forall i :: 0 <= i < |Spaced(ps)| ==> IsLine(Spaced(ps)[i]) && Trimmed(Spaced(ps)[i])
    decreases |ps|
  {
    if |ps| > 1 {
      SpacedAreLines(ps[1..]);
      var rest := Spaced(ps[1..]);
      assert forall i :: 2 <= i < |Spaced(ps)| ==> Spaced(ps)[i] == rest[i - 2];
    }
  }

  /** Segmentation is idempotent on its own formatted output. */
  lemma SegmentationIdempotent(text: string)
    ensures Paragraphs(FormattedText(Paragraphs(text))) == Paragraphs(text)
  {
    ParagraphsAreClean(text);
    FormattedTextRoundTrip(Paragraphs(text));
  }

  // ------------------------------------------------- worked examples

  /** "HEADER" is a heading; both sentences are markers, each ending in a letter and a full stop. */
  lemma SentencesKinds()
    ensures Classify("HEADER") == Heading
    ensures Classify("This is line one.") == Marker
    ensures Classify("This continues line one.") == Marker
  {
    assert WordDotAt("This is line one.", 15);
    assert WordDotAt("This continues line one.", 22);
    UpperFixedIffNoLower("HEADER");
    assert !HasWordDot("HEADER");
  }

  /**
   * A heading, a blank line and two sentences: the second sentence ends in
   * a word character and a full stop, so it opens a paragraph of its own.
   */
  lemma SentencesAreMarkers()
    ensures Segment(["HEADER", "", "This is line one.", "This continues line one."])
         == ["HEADER", "This is line one.", "This continues line one."]
  {
    var l1, l2 := "This is line one.", "This continues line one.";
    SentencesKinds();
    BlankLineSeparates(["HEADER"], [l1, l2]);
    SingleLine("HEADER");
    MarkerOpensParagraph([l1], l2, []);
    SingleLine(l1);
    SingleLine(l2);
    assert [l1] + [l2] + [] == [l1, l2];
    assert ["HEADER"] + [""] + [l1, l2] == ["HEADER", "", l1, l2];
  }

  /** A continuation line extends the paragraph that the line before it opened or continued. */
  lemma TwoLineParagraph(first: string, next: string)
    requires Classify(first) == Marker || Classify(first) == Continuation
    requires Classify(next) == Continuation
    ensures Segment([first, next]) == [first + " " + next]
  {
    assert [first, next][..1] == [first];
    assert [first][..0] == [];
    assert RunFrom(Start, [first]) == State(first, []) by {
      if Classify(first) == Continuation {
        assert "" + "" + first == first;
      }
    }
  }

  /**
   * Continuation lines keep extending the paragraph that a marker or
   * continuation line opened: after `first` and any number of continuation
   * lines, the pending paragraph is all of them joined with single spaces
   * and nothing has been pushed.
   */
  lemma {:induction false} ContinuationsJoin(first: string, cs: seq<string>)
    requires Classify(first) == Marker || Classify(first) == Continuation
    requires forall j :: 0 <= j < |cs| ==> Classify(cs[j]) == Continuation
    ensures RunFrom(Start, [first] + cs) == State(Join([first] + cs, " "), [])
    decreases |cs|
  {
    if cs == [] {
      assert RunFrom(Start, [first]) == State(first, []) by {
        assert [first][..0] == [];
        if Classify(first) == Continuation {
          assert "" + "" + first == first;
        }
      }
      assert [first] + cs == [first];
    } else {
      var init, last := cs[..|cs| - 1], cs[|cs| - 1];
      assert forall j :: 0 <= j < |init| ==> init[j] == cs[j];
      ContinuationsJoin(first, init);
      var ls := [first] + cs;
      assert ls[..|ls| - 1] == [first] + init && ls[|ls| - 1] == last;
      JoinNonEmpty([first] + init, " ");
      JoinSnoc([first] + init, " ", last);
      assert ([first] + init) + [last] == ls;
    }
  }

  /** A marker or continuation line followed only by continuation lines makes one paragraph of them all. */
  lemma ContinuedParagraph(first: string, cs: seq<string>)
    requires Classify(first) == Marker || Classify(first) == Continuation
    requires forall j :: 0 <= j < |cs| ==> Classify(cs[j]) == Continuation
    ensures Segment([first] + cs) == [Join([first] + cs, " ")]
  {
    ContinuationsJoin(first, cs);
    JoinNonEmpty([first] + cs, " ");
  }

  lemma NumberedItemsKinds()
    ensures Classify("1. First item") == Marker
    ensures Classify("continued text") == Continuation
    ensures Classify("2. Second item") == Marker
  {
    var l0, l1, l2 := "1. First item", "continued text", "2. Second item";
    assert WordDotAt(l0, 0);
    assert WordDotAt(l2, 0);
    assert !HasWordDot(l1);
    assert !IsHeading(l1) by {
      UpperFixedIffNoLower(l1);
      assert IsLower(l1[0]);
    }
  }

  /** Numbered items absorb the plain lines after them. */
  lemma NumberedItemsExample()
    ensures Segment(["1. First item", "continued text", "2. Second item"])
         == ["1. First item continued text", "2. Second item"]
  {
    var l0, l1, l2 := "1. First item", "continued text", "2. Second item";
    NumberedItemsKinds();
    MarkerOpensParagraph([l0, l1], l2, []);
    TwoLineParagraph(l0, l1);
    SingleLine(l2);
    assert l0 + " " + l1 == "1. First item continued text";
    assert [l0, l1] + [l2] + [] == [l0, l1, l2];
  }

  /**
   * A text with no line feed and something other than white space in it is
   * one paragraph: the trimmed text, whichever rule its line falls to.
   */
  lemma OneLineOneParagraph(text: string)
    requires '\n' !in text && !AllSpace(text)
    ensures Paragraphs(text) == [Trim(text)]
  {
    SplitWithoutLineFeed(text);
    assert Lines(text) == [Trim(text)];
    SingleLine(Trim(text));
  }
}
