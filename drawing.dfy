/**
 * The drawing canvas as a recorder of draw calls, and
 * `draw_multiline_text(can, text, x, y, line_height)`: cut the text at every
 * newline and draw piece i at (x, y - i * line_height).
 */
module Drawing {
  import opened Strings

  /** One call made on the canvas. */
  datatype DrawOp =
    | SetFont(name: string, size: int)
    | Text(x: int, y: int, text: string)
    | Image(source: string, x: int, y: int, width: int, height: int)

  /** A page canvas: it only records, in order, the calls made on it. */
  class Canvas {
    var ops: seq<DrawOp>

    constructor ()
      ensures ops == []
    {
      ops := [];
    }

    method SetFontTo(name: string, size: int)
      modifies this
      ensures ops == old(ops) + [SetFont(name, size)]
    {
      ops := ops + [SetFont(name, size)];
    }

    method DrawString(x: int, y: int, text: string)
      modifies this
      ensures ops == old(ops) + [Text(x, y, text)]
    {
      ops := ops + [Text(x, y, text)];
    }

    method DrawImage(source: string, x: int, y: int, width: int, height: int)
      modifies this
      ensures ops == old(ops) + [Image(source, x, y, width, height)]
    {
      ops := ops + [Image(source, x, y, width, height)];
    }
  }

  /**
   * The lines drawn as a block: the first at (x, y), each next one a line
   * height below the previous one.
   */
  function Place(lines: seq<string>, x: int, y: int, lineHeight: int): (ops: seq<DrawOp>)
    ensures |ops| == |lines|
    decreases |lines|
  {
    if lines == [] then []
    else [Text(x, y, lines[0])] + Place(lines[1..], x, y - lineHeight, lineHeight)
  }

  /** Line i of a block is drawn at (x, y - i * lineHeight). */
  lemma {:induction false} PlaceAt(lines: seq<string>, x: int, y: int, lineHeight: int, i: nat)
    requires i < |lines|
    ensures Place(lines, x, y, lineHeight)[i] == Text(x, y - i * lineHeight, lines[i])
    decreases i
  {
    if i > 0 {
      PlaceAt(lines[1..], x, y - lineHeight, lineHeight, i - 1);
      assert y - lineHeight - (i - 1) * lineHeight == y - i * lineHeight;
    }
  }

  /** Drawing one more line appends it one line height below the last. */
  lemma PlaceSnoc(lines: seq<string>, line: string, x: int, y: int, lineHeight: int)
    ensures Place(lines + [line], x, y, lineHeight) ==
            Place(lines, x, y, lineHeight) + [Text(x, y - |lines| * lineHeight, line)]
  {
    var ops := Place(lines + [line], x, y, lineHeight);
    var expected := Place(lines, x, y, lineHeight) + [Text(x, y - |lines| * lineHeight, line)];
    forall i | 0 <= i < |ops| ensures ops[i] == expected[i] {
      PlaceAt(lines + [line], x, y, lineHeight, i);
      if i < |lines| {
        PlaceAt(lines, x, y, lineHeight, i);
      }
    }
  }

  /** The draw calls `draw_multiline_text` makes. */
  function MultilineDraws(text: string, x: int, y: int, lineHeight: int): seq<DrawOp>
  {
    Place(Split(text, '\n'), x, y, lineHeight)
  }

  /**
   * One draw per newline-separated piece, at least one even for the empty
   * text; every piece at the same x, piece i at y - i * lineHeight.
   */
  lemma MultilineDrawsAt(text: string, x: int, y: int, lineHeight: int)
    ensures |MultilineDraws(text, x, y, lineHeight)| == |Split(text, '\n')| >= 1
    ensures forall i :: 0 <= i < |Split(text, '\n')| ==>
              MultilineDraws(text, x, y, lineHeight)[i] == Text(x, y - i * lineHeight, Split(text, '\n')[i])
  {
    forall i | 0 <= i < |Split(text, '\n')|
      ensures MultilineDraws(text, x, y, lineHeight)[i] == Text(x, y - i * lineHeight, Split(text, '\n')[i])
    {
      PlaceAt(Split(text, '\n'), x, y, lineHeight, i);
    }
  }

  /** `draw_multiline_text`: the indexed loop of draw calls. */
  method DrawMultilineText(can: Canvas, text: string, x: int, y: int, lineHeight: int)
    modifies can
    ensures can.ops == old(can.ops) + MultilineDraws(text, x, y, lineHeight)
  {
    var lines := Split(text, '\n');
    for i := 0 to |lines|
      invariant can.ops == old(can.ops) + Place(lines[..i], x, y, lineHeight)
    {
      PlaceSnoc(lines[..i], lines[i], x, y, lineHeight);
      assert lines[..i + 1] == lines[..i] + [lines[i]];
      can.DrawString(x, y - i * lineHeight, lines[i]);
    }
    assert lines[..|lines|] == lines;
  }
}
