/**
 * The segmenter's output seen as a partition of the non-blank lines: the
 * same scan as `Segmentation.Step`, run over lists of lines instead of joined
 * strings, exhibits the runs of lines each paragraph is made of.
 */
module Partition {
  import opened Text
  import opened Segmentation

  /** The lines of the pending paragraph, and the line runs already pushed. */
  datatype Grouping = Grouping(open: seq<string>, closed: seq<seq<string>>)

  function Close(g: Grouping): seq<seq<string>> {
    if g.open != [] then g.closed + [g.open] else g.closed
  }

  function GroupStep(g: Grouping, line: string): Grouping {
    match Classify(line)
    case Blank => Grouping([], Close(g))
    case Marker => Grouping([line], Close(g))
    case Heading => Grouping([], Close(g) + [[line]])
    case Continuation => Grouping(g.open + [line], g.closed)
  }

  function GroupRun(lines: seq<string>): Grouping
    decreases |lines|
  {
    if lines == [] then Grouping([], [])
    else GroupStep(GroupRun(lines[..|lines| - 1]), lines[|lines| - 1])
  }

  /** The runs of lines behind the paragraphs of `Segment(lines)`. */
  function Runs(lines: seq<string>): seq<seq<string>> {
    Close(GroupRun(lines))
  }

  /** Each run joined with single spaces. */
  function JoinAll(runs: seq<seq<string>>): seq<string>
    decreases |runs|
  {
    if runs == [] then [] else JoinAll(runs[..|runs| - 1]) + [Join(runs[|runs| - 1], " ")]
  }

  function Flatten(runs: seq<seq<string>>): seq<string>
    decreases |runs|
  {
    if runs == [] then [] else Flatten(runs[..|runs| - 1]) + runs[|runs| - 1]
  }

  /** The non-blank lines, in order. */
  function NonBlank(lines: seq<string>): seq<string>
    decreases |lines|
  {
    if lines == [] then []
    else NonBlank(lines[..|lines| - 1]) + (if lines[|lines| - 1] != "" then [lines[|lines| - 1]] else [])
  }

  /**
   * The shape of a run the rules can produce: at least one line, no blank
   * line, every line after the first a continuation line, and a heading
   * only ever alone.
   */
  predicate IsRun(run: seq<string>) {
    run != [] &&
    (forall j :: 0 <= j < |run| ==> run[j] != "") &&
    (forall j :: 1 <= j < |run| ==> Classify(run[j]) == Continuation) &&
    (Classify(run[0]) == Heading ==> |run| == 1)
  }

  /** The runs, closed and pending, hold exactly the non-blank lines seen, in order. */
  predicate Covers(g: Grouping, lines: seq<string>) {
    Flatten(g.closed) + g.open == NonBlank(lines)
  }

  /** Every closed run has the allowed shape; the pending one too, and it is never a heading. */
  predicate WellShaped(g: Grouping) {
    (forall k :: 0 <= k < |g.closed| ==> IsRun(g.closed[k])) &&
    (g.open == [] || (IsRun(g.open) && Classify(g.open[0]) != Heading))
  }

  /** The scan's state is the pending run joined, beside the closed runs joined. */
  predicate Mirrors(g: Grouping, lines: seq<string>) {
    RunFrom(Start, lines) == State(Join(g.open, " "), JoinAll(g.closed))
  }

  predicate GroupingInv(g: Grouping, lines: seq<string>) {
    Covers(g, lines) && WellShaped(g) && Mirrors(g, lines)
  }

  lemma CloseKeepsRuns(g: Grouping)
    requires (forall k :: 0 <= k < |g.closed| ==> IsRun(g.closed[k]))
    requires g.open == [] || IsRun(g.open)
    ensures forall k :: 0 <= k < |Close(g)| ==> IsRun(Close(g)[k])
    ensures Flatten(Close(g)) == Flatten(g.closed) + g.open
    ensures JoinAll(Close(g)) == Flush(State(Join(g.open, " "), JoinAll(g.closed)))
  {
    if g.open != [] {
      var c := g.closed + [g.open];
      forall k | 0 <= k < |c| ensures IsRun(c[k]) {
        if k < |g.closed| {
          assert c[k] == g.closed[k];
        }
      }
    }
    CloseFlatten(g);
    CloseJoins(g);
  }

  lemma CloseFlatten(g: Grouping)
    ensures Flatten(Close(g)) == Flatten(g.closed) + g.open
  {
    if g.open != [] {
      var c := g.closed + [g.open];
      assert c[..|c| - 1] == g.closed;
    } else {
      assert g.open + [] == g.open;
    }
  }

  lemma CloseJoins(g: Grouping)
    requires g.open == [] || g.open[0] != ""
    ensures JoinAll(Close(g)) == Flush(State(Join(g.open, " "), JoinAll(g.closed)))
  {
    if g.open != [] {
      var c := g.closed + [g.open];
      assert c[..|c| - 1] == g.closed;
      JoinNonEmpty(g.open, " ");
    }
  }

  /** What appending a line does to the scan and to the non-blank lines. */
  lemma AppendLine(lines: seq<string>, line: string)
    ensures RunFrom(Start, lines + [line]) == Step(RunFrom(Start, lines), line)
    ensures NonBlank(lines + [line]) == NonBlank(lines) + (if line != "" then [line] else [])
  {
    AppendLineScan(lines, line);
    AppendLineNonBlank(lines, line);
  }

  lemma AppendLineScan(lines: seq<string>, line: string)
    ensures RunFrom(Start, lines + [line]) == Step(RunFrom(Start, lines), line)
  {
    var ls := lines + [line];
    assert ls[..|ls| - 1] == lines;
  }

  lemma AppendLineNonBlank(lines: seq<string>, line: string)
    ensures NonBlank(lines + [line]) == NonBlank(lines) + (if line != "" then [line] else [])
  {
    var ls := lines + [line];
    assert ls[..|ls| - 1] == lines;
  }

  lemma GroupStepKeepsInv(g: Grouping, lines: seq<string>, line: string)
    requires GroupingInv(g, lines)
    ensures GroupingInv(GroupStep(g, line), lines + [line])
  {
    StepCovers(g, lines, line);
    StepWellShaped(g, line);
    StepMirrors(g, lines, line);
  }

  /** Each rule keeps every non-blank line in exactly one run, in order. */
  lemma StepCovers(g: Grouping, lines: seq<string>, line: string)
    requires Covers(g, lines)
    ensures Covers(GroupStep(g, line), lines + [line])
  {
    CoversAfter(g, lines, line);
    if line == "" {
      assert GroupStep(g, line) == Grouping([], Close(g));
    } else {
      assert Classify(line) != Blank;
    }
  }

  /** Where the next line can go, what the runs then cover. */
  lemma CoversAfter(g: Grouping, lines: seq<string>, line: string)
    requires Covers(g, lines)
    ensures line == "" ==> Covers(Grouping([], Close(g)), lines + [line])
    ensures line != "" ==> Covers(Grouping([line], Close(g)), lines + [line])
    ensures line != "" ==> Covers(Grouping([], Close(g) + [[line]]), lines + [line])
    ensures line != "" ==> Covers(Grouping(g.open + [line], g.closed), lines + [line])
  {
    var seen := NonBlank(lines);
    var next := NonBlank(lines + [line]);
    AppendLineNonBlank(lines, line);
    CloseFlatten(g);
    assert Flatten(Close(g)) == seen;
    if line == "" {
      assert next == seen && seen + [] == seen;
    } else {
      assert next == seen + [line];
      var c := Close(g) + [[line]];
      assert Flatten(c) == seen + [line] by {
        assert c[..|c| - 1] == Close(g);
      }
      assert Flatten(c) + [] == Flatten(c);
      assert Flatten(g.closed) + (g.open + [line]) == seen + [line];
    }
  }

  /** Each rule keeps the runs of the allowed shape. */
  lemma StepWellShaped(g: Grouping, line: string)
    requires WellShaped(g)
    ensures WellShaped(GroupStep(g, line))
  {
    match Classify(line)
    case Blank =>
      CloseKeepsRuns(g);
    case Marker =>
      CloseKeepsRuns(g);
      assert IsRun([line]);
    case Heading =>
      CloseKeepsRuns(g);
      var c := Close(g) + [[line]];
      assert IsRun([line]);
      assert forall k :: 0 <= k < |c| ==> IsRun(c[k]) by {
        forall k | 0 <= k < |c| ensures IsRun(c[k]) {
          if k < |Close(g)| {
            assert c[k] == Close(g)[k];
          }
        }
      }
    case Continuation =>
      var o := g.open + [line];
      if g.open != [] {
        assert o[0] == g.open[0];
        assert IsRun(o);
      } else {
        assert o == [line];
        assert IsRun(o);
      }
  }

  /** Each rule moves the scan's state as it moves the runs. */
  lemma StepMirrors(g: Grouping, lines: seq<string>, line: string)
    requires Mirrors(g, lines)
    requires g.open == [] || g.open[0] != ""
    ensures Mirrors(GroupStep(g, line), lines + [line])
  {
    AppendLineScan(lines, line);
    CloseJoins(g);
    match Classify(line)
    case Blank =>
    case Marker =>
      assert Join([line], " ") == line;
    case Heading =>
      var c := Close(g) + [[line]];
      assert c[..|c| - 1] == Close(g);
    case Continuation =>
      if g.open != [] {
        JoinSnoc(g.open, " ", line);
        JoinNonEmpty(g.open, " ");
      } else {
        assert "" + "" + line == line;
        assert g.open + [line] == [line];
      }
  }

  lemma {:induction false} GroupRunInv(lines: seq<string>)
    ensures GroupingInv(GroupRun(lines), lines)
    decreases |lines|
  {
    if lines != [] {
      var init := lines[..|lines| - 1];
      GroupRunInv(init);
      GroupStepKeepsInv(GroupRun(init), init, lines[|lines| - 1]);
      assert init + [lines[|lines| - 1]] == lines;
    }
  }

  lemma {:induction false} FewerRunsThanLines(runs: seq<seq<string>>)
    requires forall k :: 0 <= k < |runs| ==> runs[k] != []
    ensures |runs| <= |Flatten(runs)|
    decreases |runs|
  {
    if runs != [] {
      FewerRunsThanLines(runs[..|runs| - 1]);
    }
  }

  /**
   * Partition: the paragraphs are, in order, the single-space joins of
   * consecutive runs of the non-blank lines; the runs cover every non-blank
   * line exactly once, each run has the shape the rules allow, and so there
   * are never more paragraphs than non-blank lines.
   */
  lemma SegmentIsPartition(lines: seq<string>)
    ensures Segment(lines) == JoinAll(Runs(lines))
    ensures Flatten(Runs(lines)) == NonBlank(lines)
    ensures forall k :: 0 <= k < |Runs(lines)| ==> IsRun(Runs(lines)[k])
    ensures |Segment(lines)| <= |NonBlank(lines)|
  {
    var g := GroupRun(lines);
    GroupRunInv(lines);
    CloseKeepsRuns(g);
    FewerRunsThanLines(Runs(lines));
    JoinAllLength(Runs(lines));
  }

  lemma {:induction false} JoinAllLength(runs: seq<seq<string>>)
    ensures |JoinAll(runs)| == |runs|
    decreases |runs|
  {
    if runs != [] {
      JoinAllLength(runs[..|runs| - 1]);
    }
  }

  /** The same for a whole text: its paragraphs partition its non-blank trimmed lines. */
  lemma ParagraphsPartitionText(text: string)
    ensures Paragraphs(text) == JoinAll(Runs(Lines(text)))
    ensures Flatten(Runs(Lines(text))) == NonBlank(Lines(text))
    ensures forall k :: 0 <= k < |Runs(Lines(text))| ==> IsRun(Runs(Lines(text))[k])
    ensures |Paragraphs(text)| <= |NonBlank(Lines(text))|
  {
    SegmentIsPartition(Lines(text));
  }

  /** Runs of the shape the rules produce flatten to nothing only when there are none. */
  lemma FlattenEmpty(runs: seq<seq<string>>)
    requires forall k :: 0 <= k < |runs| ==> IsRun(runs[k])
    ensures Flatten(runs) == [] <==> runs == []
  {
    if runs != [] {
      assert IsRun(runs[|runs| - 1]);
    }
  }

  /**
   * No non-blank line is lost: a text has no paragraphs exactly when every
   * one of its trimmed lines is blank.
   */
  lemma NoParagraphsIffAllBlank(text: string)
    ensures Paragraphs(text) == [] <==> NonBlank(Lines(text)) == []
  {
    var runs := Runs(Lines(text));
    ParagraphsPartitionText(text);
    JoinAllLength(runs);
    FlattenEmpty(runs);
  }
}
