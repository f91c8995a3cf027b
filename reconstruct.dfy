/**
 * The loop of `render_page` that turns one page's text items, in the order
 * the PDF parser emits them, into the page's text. Each item carries its
 * string and its baseline (`transform[5]`). The baseline is an integer here,
 * and 0 plays both "no baseline seen yet" and the falsy baseline 0: the
 * code's `!lastY` cannot tell the two apart.
 */
module Reconstruct {

  datatype TextItem = TextItem(str: string, y: int)

  /** What the loop writes before an item on baseline `y` when the previous baseline is `lastY`. */
  function Separator(lastY: int, y: int): string {
    if lastY == y || lastY == 0 then "" else "\n"
  }

  /** The text the loop appends for `items` when it starts with `lastY` as the previous baseline. */
  function RenderFrom(lastY: int, items: seq<TextItem>): string
    decreases |items|
  {
    if items == [] then ""
    else Separator(lastY, items[0].y) + items[0].str + RenderFrom(items[0].y, items[1..])
  }

  /** The page text: the loop run from an unset baseline. */
  function Render(items: seq<TextItem>): string {
    RenderFrom(0, items)
  }

  /**
   * Item `i` is put on a new line: it has a predecessor, whose baseline is
   * non-zero and differs from its own.
   */
  predicate BreakBefore(items: seq<TextItem>, i: nat)
    requires i < |items|
  {
    i > 0 && items[i - 1].y != 0 && items[i - 1].y != items[i].y
  }

  /** Item `i`'s contribution to the page text: an optional line break, then its string. */
  function Piece(items: seq<TextItem>, i: nat): string
    requires i < |items|
  {
    (if BreakBefore(items, i) then "\n" else "") + items[i].str
  }

  /** The pieces of the first `n` items, concatenated in emission order. */
  function Pieces(items: seq<TextItem>, n: nat): string
    requires n <= |items|
  {
    if n == 0 then "" else Pieces(items, n - 1) + Piece(items, n - 1)
  }

  /** The previous baseline after `n` items have been seen. */
  function LastY(items: seq<TextItem>, n: nat): int
    requires n <= |items|
  {
    if n == 0 then 0 else items[n - 1].y
  }

  lemma {:induction false} RenderFromPieces(items: seq<TextItem>, n: nat)
    requires n <= |items|
    ensures Pieces(items, n) + RenderFrom(LastY(items, n), items[n..]) == Pieces(items, |items|)
    decreases |items| - n
  {
    if n < |items| {
      RenderFromPieces(items, n + 1);
      assert items[n..][1..] == items[n + 1..];
      assert Separator(LastY(items, n), items[n].y) == (if BreakBefore(items, n) then "\n" else "");
    }
  }

  /**
   * The page text is every item's string, in emission order, with one line
   * break before exactly those items whose predecessor has a non-zero
   * baseline different from theirs.
   */
  lemma RenderIsPieces(items: seq<TextItem>)
    ensures Render(items) == Pieces(items, |items|)
  {
    RenderFromPieces(items, 0);
    assert items[0..] == items;
  }

  /** The strings of `items` concatenated, with nothing between them. */
  function Concat(items: seq<TextItem>): string {
    if items == [] then "" else Concat(items[..|items| - 1]) + items[|items| - 1].str
  }

  lemma {:induction false} PiecesWithoutBreaks(items: seq<TextItem>, n: nat)
    requires n <= |items|
    requires forall i :: 0 < i < |items| ==> items[i - 1].y == items[i].y || items[i - 1].y == 0
    ensures Pieces(items, n) == Concat(items[..n])
  {
    if n > 0 {
      PiecesWithoutBreaks(items, n - 1);
      assert items[..n][..n - 1] == items[..n - 1];
    }
  }

  /**
   * When every item follows one on the same baseline or on baseline 0, the
   * page text is the plain concatenation of the strings.
   */
  lemma SameLineJoinsPlainly(items: seq<TextItem>)
    requires forall i :: 0 < i < |items| ==> items[i - 1].y == items[i].y || items[i - 1].y == 0
    ensures Render(items) == Concat(items)
  {
    RenderIsPieces(items);
    PiecesWithoutBreaks(items, |items|);
    assert items[..|items|] == items;
  }

  /** The page text begins with the first item's string: no break ever precedes it. */
  lemma FirstItemStartsText(items: seq<TextItem>)
    requires items != []
    ensures items[0].str <= Render(items)
    ensures Render(items) == items[0].str + RenderFrom(items[0].y, items[1..])
  {
  }

  /** No items, no text. */
  lemma NoItemsNoText()
    ensures Render([]) == ""
  {
  }

  /** Three items on baselines 100, 100 and 200 make two lines. */
  lemma TwoLinesExample()
    ensures Render([TextItem("Hello ", 100), TextItem("World", 100), TextItem("Next", 200)]) == "Hello World\nNext"
  {
  }

  /**
   * An item that follows one on baseline 0, or one on its own baseline,
   * contributes just its string: no line break goes before it.
   */
  lemma NoBreakAfterZeroOrSame(items: seq<TextItem>, i: nat)
    requires 0 < i < |items|
    requires items[i - 1].y == 0 || items[i - 1].y == items[i].y
    ensures !BreakBefore(items, i) && Piece(items, i) == items[i].str
  {
  }

  /** An item on baseline 7 after one on baseline 0 goes on the same line. */
  lemma ZeroBaselineExample()
    ensures Render([TextItem("a", 0), TextItem("b", 7)]) == "ab"
  {
  }

  /**
   * The fragment loop of `render_page`: `lastY` starts unset, each item's
   * string is appended, preceded by a line break when the previous baseline
   * is set and differs from the item's, and `lastY` takes the item's baseline.
   */
  method RenderPageText(items: seq<TextItem>) returns (text: string)
    ensures text == Render(items)
    ensures text == Pieces(items, |items|)
    ensures items == [] ==> text == ""
  {
    var lastY := 0;
    text := "";
    for i := 0 to |items|
      invariant text == Pieces(items, i)
      invariant lastY == LastY(items, i)
    {
      var item := items[i];
      if lastY == item.y || lastY == 0 {
        text := text + item.str;
      } else {
        text := text + "\n" + item.str;
      }
      lastY := item.y;
    }
    RenderIsPieces(items);
  }
}
