/**
 * Filling the CMR consignment note: the fixed field table, the overlay page
 * drawn from one record of field values, the pairing of one overlay with
 * each template page, the output file name and the form's pre-fill values.
 *
 * Pages are opaque values of a type parameter `P`; the library's page merge
 * is the function parameter `merge`, of which nothing is assumed.
 */
module Cmr {
  import opened Wrappers
  import opened Strings
  import opened TextWrap
  import opened Drawing

  // ---------------------------------------------------------------------------
  // The field table

  /** The ten fields of the form, one per text block on the page. */
  datatype Field =
    | Sender | Receiver | Carrier | PlaceOfLoading | PlaceOfUnloading
    | Goods | Weight | Pieces | DateOfDispatch | VehicleNumber

  /** The key under which a field's value is stored in a record. */
  function Key(f: Field): string
  {
    match f
    case Sender => "sender"
    case Receiver => "receiver"
    case Carrier => "carrier"
    case PlaceOfLoading => "place_of_loading"
    case PlaceOfUnloading => "place_of_unloading"
    case Goods => "goods"
    case Weight => "weight"
    case Pieces => "pieces"
    case DateOfDispatch => "date_of_dispatch"
    case VehicleNumber => "vehicle_number"
  }

  /** The order in which the fields are drawn. */
  const FieldOrder: seq<Field> :=
    [Sender, Receiver, Carrier, PlaceOfLoading, PlaceOfUnloading,
     Goods, Weight, Pieces, DateOfDispatch, VehicleNumber]

  /** Where a field stands in the drawing order: every field is drawn exactly once. */
  function Position(f: Field): (k: nat)
    ensures k < |FieldOrder| && FieldOrder[k] == f
    ensures forall j :: 0 <= j < |FieldOrder| && FieldOrder[j] == f ==> j == k
  {
    match f
    case Sender => 0
    case Receiver => 1
    case Carrier => 2
    case PlaceOfLoading => 3
    case PlaceOfUnloading => 4
    case Goods => 5
    case Weight => 6
    case Pieces => 7
    case DateOfDispatch => 8
    case VehicleNumber => 9
  }

  /** Different fields are stored under different keys. */
  lemma KeysDistinct(f: Field, g: Field)
    ensures Key(f) == Key(g) <==> f == g
  {
  }

  /** A field's wrap width in characters and the origin of its first line. */
  datatype Placement = Placement(width: int, x: int, y: int)

  function PlacementOf(f: Field): (p: Placement)
    ensures p.width == if f == Carrier then 20 else if f == Goods then 40 else 30
  {
    match f
    case Sender => Placement(30, 60, 742)
    case Receiver => Placement(30, 60, 675)
    case Carrier => Placement(20, 65, 105)
    case PlaceOfLoading => Placement(30, 60, 535)
    case PlaceOfUnloading => Placement(30, 60, 595)
    case Goods => Placement(40, 60, 430)
    case Weight => Placement(30, 435, 430)
    case Pieces => Placement(30, 100, 137)
    case DateOfDispatch => Placement(30, 210, 137)
    case VehicleNumber => Placement(30, 370, 640)
  }

  /** Every field is drawn with the same line height. */
  const LineHeight := 15
  const FontName := "Helvetica"
  const FontSize := 12
  const StampFile := "stamp.png"

  /** The stamp image, drawn at its two fixed places on every overlay. */
  const StampDraws: seq<DrawOp> :=
    [Image(StampFile, 430, 650, 120, 48), Image(StampFile, 240, 75, 120, 48)]

  // ---------------------------------------------------------------------------
  // The overlay page

  /** The field values, by key, as the generator receives them. */
  type Record = map<string, string>

  /** An overlay page: the calls made on its canvas. */
  type Overlay = seq<DrawOp>

  /** Looking up a key the record lacks fails. */
  datatype CmrError = MissingField(key: string)

  ghost predicate Complete(data: Record)
  {
    forall f: Field :: Key(f) in data
  }

  /** The first field, in drawing order, whose key the record lacks. */
  function FirstMissing(data: Record): (r: Option<Field>)
    ensures r.None? <==> Complete(data)
    ensures r.Some? ==> Key(r.value) !in data
    ensures r.Some? ==> forall j :: 0 <= j < Position(r.value) ==> Key(FieldOrder[j]) in data
  {
    if Key(Sender) !in data then Some(Sender)
    else if Key(Receiver) !in data then Some(Receiver)
    else if Key(Carrier) !in data then Some(Carrier)
    else if Key(PlaceOfLoading) !in data then Some(PlaceOfLoading)
    else if Key(PlaceOfUnloading) !in data then Some(PlaceOfUnloading)
    else if Key(Goods) !in data then Some(Goods)
    else if Key(Weight) !in data then Some(Weight)
    else if Key(Pieces) !in data then Some(Pieces)
    else if Key(DateOfDispatch) !in data then Some(DateOfDispatch)
    else if Key(VehicleNumber) !in data then Some(VehicleNumber)
    else None
  }

  /**
   * A field is the first missing one exactly when its key is absent and the
   * keys of all fields drawn before it are present.
   */
  lemma FirstMissingIs(data: Record, f: Field)
    ensures FirstMissing(data) == Some(f) <==>
            Key(f) !in data && forall j :: 0 <= j < Position(f) ==> Key(FieldOrder[j]) in data
  {
    var r := FirstMissing(data);
    if Key(f) !in data && forall j :: 0 <= j < Position(f) ==> Key(FieldOrder[j]) in data {
      assert !Complete(data);
      var g := r.value;
      assert Key(FieldOrder[Position(g)]) !in data;
      assert Key(FieldOrder[Position(f)]) !in data;
      assert Position(g) == Position(f);
    }
  }

  /**
   * The draw calls for one field: its value wrapped, then drawn as a block at
   * its origin. There is at least one call, and every call is a text in the
   * field's column, each line one line height below the one before.
   */
  function FieldDraws(f: Field, value: string): (r: seq<DrawOp>)
    ensures |r| >= 1
    ensures forall i :: 0 <= i < |r| ==>
              r[i].Text? && r[i].x == PlacementOf(f).x && r[i].y == PlacementOf(f).y - i * LineHeight
  {
    var p := PlacementOf(f);
    MultilineDrawsAt(Wrapped(value, p.width), p.x, p.y, LineHeight);
    MultilineDraws(Wrapped(value, p.width), p.x, p.y, LineHeight)
  }

  /** The value the record holds for a field; only read for fields it holds. */
  function ValueOf(data: Record, f: Field): string
  {
    if Key(f) in data then data[Key(f)] else ""
  }

  /** The blocks of `fields`, one after the other, each as `block` draws it. */
  function Blocks(fields: seq<Field>, block: Field -> seq<DrawOp>): seq<DrawOp>
    decreases |fields|
  {
    if fields == [] then []
    else Blocks(fields[..|fields| - 1], block) + block(fields[|fields| - 1])
  }

  /** How each field of a record is drawn. */
  function FieldBlocks(data: Record): Field -> seq<DrawOp>
  {
    f => FieldDraws(f, ValueOf(data, f))
  }

  /**
   * The overlay page for a record: the font, the ten field blocks in order,
   * the stamp twice; or the first missing key.
   */
  function OverlayOps(data: Record): (r: Result<Overlay, CmrError>)
    ensures r.Ok? <==> Complete(data)
    ensures r.Err? ==> exists f :: r.error == MissingField(Key(f)) && Key(f) !in data &&
                                   forall j :: 0 <= j < Position(f) ==> Key(FieldOrder[j]) in data
  {
    match FirstMissing(data)
    case Some(f) => Err(MissingField(Key(f)))
    case None => Ok(OverlayPage(data))
  }

  /**
   * The calls on the overlay canvas once every key is found: the font is set
   * once, first; the stamp is drawn at its two places, last; every call in
   * between draws text.
   */
  function OverlayPage(data: Record): (r: Overlay)
    ensures |r| >= 3 && r[0] == SetFont("Helvetica", 12)
    ensures r[|r| - 2..] == [Image("stamp.png", 430, 650, 120, 48), Image("stamp.png", 240, 75, 120, 48)]
    ensures TextOnly(r[1..|r| - 2])
  {
    var fields := Blocks(FieldOrder, FieldBlocks(data));
    FieldBlocksText(data);
    BlocksText(FieldOrder, FieldBlocks(data));
    assert ([SetFont(FontName, FontSize)] + fields + StampDraws)[1..|fields| + 1] == fields;
    [SetFont(FontName, FontSize)] + fields + StampDraws
  }

  /** Every call draws text. */
  predicate TextOnly(ops: seq<DrawOp>)
  {
    forall i :: 0 <= i < |ops| ==> ops[i].Text?
  }

  /** Each field's block draws nothing but text. */
  lemma FieldBlocksText(data: Record)
    ensures forall f :: TextOnly(FieldBlocks(data)(f))
  {
    forall f ensures TextOnly(FieldBlocks(data)(f)) {
      assert FieldBlocks(data)(f) == FieldDraws(f, ValueOf(data, f));
    }
  }

  /** Blocks that each draw only text draw only text together. */
  lemma {:induction false} BlocksText(fields: seq<Field>, block: Field -> seq<DrawOp>)
    requires forall f :: TextOnly(block(f))
    ensures TextOnly(Blocks(fields, block))
    decreases |fields|
  {
    if fields != [] {
      var front, back := Blocks(fields[..|fields| - 1], block), block(fields[|fields| - 1]);
      BlocksText(fields[..|fields| - 1], block);
      assert TextOnly(back);
      assert forall i :: 0 <= i < |front + back| ==>
               (front + back)[i] == if i < |front| then front[i] else back[i - |front|];
    }
  }


  /**
   * A value without newlines, wrapped at `width` and drawn from (x, y): one
   * draw per wrapped line (a single empty draw when there is none), line i at
   * x and i line heights below y.
   */
  lemma WrappedBlock(value: string, width: int, x: int, y: int)
    requires '\n' !in value
    ensures var lines := Lines(value, width);
      var draws := MultilineDraws(Wrapped(value, width), x, y, LineHeight);
      |draws| == (if lines == [] then 1 else |lines|) &&
      (lines == [] ==> draws == [Text(x, y, "")]) &&
      forall i :: 0 <= i < |lines| ==> draws[i] == Text(x, y - i * LineHeight, lines[i])
  {
    var lines := Lines(value, width);
    var pieces := Split(Wrapped(value, width), '\n');
    var draws := MultilineDraws(Wrapped(value, width), x, y, LineHeight);
    WrappedLines(value, width);
    assert pieces == if lines == [] then [""] else lines;
    if lines == [] {
      PlaceAt(pieces, x, y, LineHeight, 0);
      assert draws == [draws[0]];
    } else {
      forall i | 0 <= i < |lines|
        ensures draws[i] == Text(x, y - i * LineHeight, lines[i])
      {
        PlaceAt(pieces, x, y, LineHeight, i);
      }
    }
  }

  /**
   * Appending nothing changes nothing. Dafny proves this and the next fact
   * unaided; they are stated apart so that the methods calling them get the
   * one equation they need instead of searching for it among many sequence
   * facts.
   */
  lemma AppendNothing<T>(s: seq<T>)
    ensures s + [] == s
  {
  }

  /** Appending two elements one at a time appends the pair. */
  lemma AppendPair<T>(s: seq<T>, a: T, b: T)
    ensures s + [a] + [b] == s + [a, b]
  {
  }

  /** A slice of the left part of a concatenation. */
  lemma SliceLeft<T>(a: seq<T>, b: seq<T>, lo: nat, hi: nat)
    requires lo <= hi <= |a|
    ensures (a + b)[lo..hi] == a[lo..hi]
  {
    assert forall i :: lo <= i < hi ==> (a + b)[i] == a[i];
  }

  /** A slice of the right part of a concatenation. */
  lemma SliceRight<T>(a: seq<T>, b: seq<T>, lo: nat, hi: nat)
    requires lo <= hi <= |b|
    ensures (a + b)[|a| + lo..|a| + hi] == b[lo..hi]
  {
    assert forall i :: lo <= i < hi ==> (a + b)[|a| + i] == b[i];
  }

  /** Drawing the next field of a list appends its block, after whatever came before. */
  lemma BlocksSnoc(head: seq<DrawOp>, fields: seq<Field>, block: Field -> seq<DrawOp>, k: nat)
    requires k < |fields|
    ensures head + Blocks(fields[..k + 1], block) == (head + Blocks(fields[..k], block)) + block(fields[k])
  {
    assert fields[..k + 1][..k] == fields[..k];
  }

  /** Field j's block starts right after the blocks of the fields before it. */
  lemma {:induction false} BlocksAt(fields: seq<Field>, block: Field -> seq<DrawOp>, j: nat)
    requires j < |fields|
    ensures var start := |Blocks(fields[..j], block)|;
      start + |block(fields[j])| <= |Blocks(fields, block)| &&
      Blocks(fields, block)[start..start + |block(fields[j])|] == block(fields[j])
    decreases |fields|
  {
    var n := |fields|;
    var init := Blocks(fields[..n - 1], block);
    var last := block(fields[n - 1]);
    var start := |Blocks(fields[..j], block)|;
    if j < n - 1 {
      BlocksAt(fields[..n - 1], block, j);
      assert fields[..n - 1][..j] == fields[..j];
      assert fields[..n - 1][j] == fields[j];
      SliceLeft(init, last, start, start + |block(fields[j])|);
    } else {
      assert fields[..n - 1] == fields[..j];
      SliceRight(init, last, 0, |last|);
      assert last[0..|last|] == last;
    }
  }

  /**
   * Framed between a head and a tail, the blocks keep their places: the head
   * comes first, the tail last, and block j right after the head and the
   * blocks before it.
   */
  lemma FramedBlocksAt(head: seq<DrawOp>, fields: seq<Field>, block: Field -> seq<DrawOp>,
                       tail: seq<DrawOp>, j: nat)
    requires j < |fields|
    ensures var all := head + Blocks(fields, block) + tail;
      var start := |head| + |Blocks(fields[..j], block)|;
      |head| + |tail| <= |all| && all[..|head|] == head && all[|all| - |tail|..] == tail &&
      start + |block(fields[j])| <= |all| - |tail| && all[start..start + |block(fields[j])|] == block(fields[j])
  {
    var texts := Blocks(fields, block);
    var start := |Blocks(fields[..j], block)|;
    var b := block(fields[j]);
    BlocksAt(fields, block, j);
    SliceRight(head, texts, start, start + |b|);
    SliceLeft(head + texts, tail, |head| + start, |head| + start + |b|);
    SliceLeft(head + texts, tail, 0, |head|);
    SliceLeft(head, texts, 0, |head|);
    SliceRight(head + texts, tail, 0, |tail|);
    assert head[0..|head|] == head && tail[0..|tail|] == tail;
  }

  /**
   * An element inside a slice that equals a block is that block's element.
   * Kept apart, like `AppendNothing`, so that `FramedOpAt` needs only
   * this instance.
   */
  lemma SliceAt<T>(all: seq<T>, start: nat, b: seq<T>, i: nat)
    requires start + |b| <= |all| && all[start..start + |b|] == b && i < |b|
    ensures all[start + i] == b[i]
  {
    assert all[start..start + |b|][i] == all[start + i];
  }

  /** An op inside block j keeps its place once the blocks are framed by a head and a tail. */
  lemma FramedOpAt(head: seq<DrawOp>, fields: seq<Field>, block: Field -> seq<DrawOp>,
                   tail: seq<DrawOp>, j: nat, i: nat)
    requires j < |fields| && i < |block(fields[j])|
    ensures var all := head + Blocks(fields, block) + tail;
      var start := |head| + |Blocks(fields[..j], block)|;
      |head| + |tail| <= |all| && all[..|head|] == head && all[|all| - |tail|..] == tail &&
      start + i < |all| - |tail| && all[start + i] == block(fields[j])[i]
  {
    var all := head + Blocks(fields, block) + tail;
    var start := |head| + |Blocks(fields[..j], block)|;
    FramedBlocksAt(head, fields, block, tail, j);
    SliceAt(all, start, block(fields[j]), i);
  }

  /** Op i of the block of the k-th field in the table, in the framed overlay. */
  lemma FramedOverlayAt(block: Field -> seq<DrawOp>, k: nat, i: nat)
    requires k < |FieldOrder| && i < |block(FieldOrder[k])|
    ensures var ops := [SetFont(FontName, FontSize)] + Blocks(FieldOrder, block) + StampDraws;
      var start := 1 + |Blocks(FieldOrder[..k], block)|;
      |ops| >= 3 && ops[0] == SetFont(FontName, FontSize) && ops[|ops| - 2..] == StampDraws &&
      start + i < |ops| - 2 && ops[start + i] == block(FieldOrder[k])[i]
  {
    var head := [SetFont(FontName, FontSize)];
    var ops := head + Blocks(FieldOrder, block) + StampDraws;
    FramedOpAt(head, FieldOrder, block, StampDraws, k, i);
    assert ops[0] == ops[..1][0];
  }

  /**
   * For a value v without newlines, line i of field f's wrapped value, drawn
   * at f's placement p, is op i of f's block.
   */
  lemma FieldLineAt(data: Record, f: Field, v: string, p: Placement, i: nat)
    requires Key(f) in data && data[Key(f)] == v && PlacementOf(f) == p
    requires '\n' !in v && i < |Lines(v, p.width)|
    ensures i < |FieldBlocks(data)(f)|
    ensures FieldBlocks(data)(f)[i] == Text(p.x, p.y - i * LineHeight, Lines(v, p.width)[i])
  {
    assert FieldBlocks(data)(f) == MultilineDraws(Wrapped(v, p.width), p.x, p.y, LineHeight);
    WrappedBlock(v, p.width, p.x, p.y);
  }

  /**
   * Where a field's block lands on the overlay page: the page opens with the
   * font and closes with the two stamps, and op i of the k-th field's block
   * comes right after the font and the blocks of the fields drawn before it.
   * With `FieldLineAt`, for a value without newlines, op i of that block is
   * line i of the field's wrapped value, at the field's x and i line heights
   * below its y.
   */
  lemma OverlayFieldAt(data: Record, k: nat, i: nat)
    requires k < |FieldOrder| && i < |FieldBlocks(data)(FieldOrder[k])|
    ensures var ops := OverlayPage(data);
      var start := 1 + |Blocks(FieldOrder[..k], FieldBlocks(data))|;
      |ops| >= 3 && ops[0] == SetFont(FontName, FontSize) && ops[|ops| - 2..] == StampDraws &&
      start + i < |ops| - 2 && ops[start + i] == FieldBlocks(data)(FieldOrder[k])[i]
  {
    FramedOverlayAt(FieldBlocks(data), k, i);
  }

  /**
   * While drawing the table in order, with no key missing before field k:
   * field k is the first missing one when its key is absent, and otherwise
   * no key is missing before field k + 1.
   */
  lemma MissingStep(data: Record, k: nat)
    requires k < |FieldOrder|
    requires FirstMissing(data).None? || k <= Position(FirstMissing(data).value)
    ensures Key(FieldOrder[k]) !in data ==> FirstMissing(data) == Some(FieldOrder[k])
    ensures Key(FieldOrder[k]) in data ==>
              FirstMissing(data).None? || k + 1 <= Position(FirstMissing(data).value)
  {
    if FirstMissing(data).Some? {
      var g := FirstMissing(data).value;
      if Position(g) != k {
        assert Key(g) !in data;
      }
    }
  }

  /**
   * One `draw_multiline_text(can, split_text(data[key], width), x, y, 15)`
   * call of the overlay: look the value up (failing when the record lacks
   * the key), wrap it at the field's width and draw it at the field's origin.
   */
  method DrawField(can: Canvas, data: Record, f: Field) returns (ok: bool)
    modifies can
    ensures ok == (Key(f) in data)
    ensures ok ==> can.ops == old(can.ops) + FieldBlocks(data)(f)
    ensures !ok ==> can.ops == old(can.ops)
  {
    if Key(f) !in data {
      return false;
    }
    var p := PlacementOf(f);
    var wrapped := SplitText(data[Key(f)], p.width);
    DrawMultilineText(can, wrapped, p.x, p.y, LineHeight);
    assert FieldBlocks(data)(f) == FieldDraws(f, data[Key(f)]);
    ok := true;
  }

  /**
   * Draws the k-th field of the table after the blocks of the fields before
   * it. Its key being absent makes it the first missing field, and the
   * canvas then holds exactly the blocks of the fields before it.
   */
  method DrawNext(can: Canvas, data: Record, k: nat, ghost start: seq<DrawOp>) returns (ok: bool)
    requires k < |FieldOrder|
    requires FirstMissing(data).None? || k <= Position(FirstMissing(data).value)
    requires can.ops == start + Blocks(FieldOrder[..k], FieldBlocks(data))
    modifies can
    ensures ok == (Key(FieldOrder[k]) in data)
    ensures ok ==> FirstMissing(data).None? || k + 1 <= Position(FirstMissing(data).value)
    ensures ok ==> can.ops == start + Blocks(FieldOrder[..k + 1], FieldBlocks(data))
    ensures !ok ==> FirstMissing(data) == Some(FieldOrder[k])
    ensures !ok ==> can.ops == start + Blocks(FieldOrder[..Position(FieldOrder[k])], FieldBlocks(data))
  {
    ok := DrawField(can, data, FieldOrder[k]);
    MissingStep(data, k);
    if ok {
      BlocksSnoc(start, FieldOrder, FieldBlocks(data), k);
    } else {
      assert Position(FieldOrder[k]) == k;
    }
  }

  /**
   * The ten `draw_multiline_text` calls of an overlay, one per row of the
   * field table and in its order. The first field whose key the record
   * lacks stops the drawing and is reported, after the blocks of the fields
   * before it; otherwise every block has been appended to the canvas.
   */
  method DrawFields(can: Canvas, data: Record) returns (missing: Option<Field>)
    modifies can
    ensures missing == FirstMissing(data)
    ensures missing.None? ==> can.ops == old(can.ops) + Blocks(FieldOrder, FieldBlocks(data))
    ensures missing.Some? ==>
              can.ops == old(can.ops) + Blocks(FieldOrder[..Position(missing.value)], FieldBlocks(data))
  {
    AppendNothing(can.ops);
    for k := 0 to |FieldOrder|
      invariant FirstMissing(data).None? || k <= Position(FirstMissing(data).value)
      invariant can.ops == old(can.ops) + Blocks(FieldOrder[..k], FieldBlocks(data))
    {
      var ok := DrawNext(can, data, k, old(can.ops));
      if !ok {
        return Some(FieldOrder[k]);
      }
    }
    assert FieldOrder[..|FieldOrder|] == FieldOrder;
    missing := None;
  }

  /**
   * The body of the first page loop: one overlay page drawn on a fresh
   * canvas, in the font, then the fields, then the stamp twice; or the
   * error of the first key the record lacks.
   */
  method RenderOverlay(data: Record) returns (r: Result<Overlay, CmrError>)
    ensures r == OverlayOps(data)
  {
    var can := new Canvas();
    can.SetFontTo(FontName, FontSize);
    assert can.ops == [SetFont(FontName, FontSize)];
    var missing := DrawFields(can, data);
    if missing.Some? {
      return Err(MissingField(Key(missing.value)));
    }
    ghost var prefix := can.ops;
    can.DrawImage(StampFile, 430, 650, 120, 48);
    can.DrawImage(StampFile, 240, 75, 120, 48);
    AppendPair(prefix, StampDraws[0], StampDraws[1]);
    r := Ok(can.ops);
  }

  // ---------------------------------------------------------------------------
  // Pairing overlays with template pages

  /** Template page i merged with overlay i, for every i, in order. */
  function MergedPages<P>(template: seq<P>, overlays: seq<Overlay>, merge: (P, Overlay) -> P): (merged: seq<P>)
    requires |template| == |overlays|
    ensures |merged| == |template|
    decreases |template|
  {
    if template == [] then []
    else
      var n := |template|;
      MergedPages(template[..n - 1], overlays[..n - 1], merge) + [merge(template[n - 1], overlays[n - 1])]
  }

  /** Page i of the result is template page i with overlay i on top. */
  lemma {:induction false} MergedPagesAt<P>(template: seq<P>, overlays: seq<Overlay>, merge: (P, Overlay) -> P, i: nat)
    requires |template| == |overlays| && i < |template|
    ensures MergedPages(template, overlays, merge)[i] == merge(template[i], overlays[i])
    decreases |template|
  {
    var n := |template|;
    if i < n - 1 {
      MergedPagesAt(template[..n - 1], overlays[..n - 1], merge, i);
    }
  }

  /** Pages that are each their template page merged with its overlay are the merged pages. */
  lemma MergedPagesEach<P>(template: seq<P>, pages: seq<P>, overlays: seq<Overlay>, merge: (P, Overlay) -> P)
    requires |template| == |pages| == |overlays|
    requires forall i :: 0 <= i < |pages| ==> pages[i] == merge(template[i], overlays[i])
    ensures pages == MergedPages(template, overlays, merge)
  {
    forall i | 0 <= i < |pages|
      ensures pages[i] == MergedPages(template, overlays, merge)[i]
    {
      MergedPagesAt(template, overlays, merge, i);
    }
  }

  /** The second page loop: overlay i merged onto page i, in place. */
  method MergeOverlays<P>(pages: array<P>, overlays: seq<Overlay>, merge: (P, Overlay) -> P)
    requires |overlays| == pages.Length
    modifies pages
    ensures pages[..] == MergedPages(old(pages[..]), overlays, merge)
  {
    for i := 0 to pages.Length
      invariant forall k :: 0 <= k < i ==> pages[k] == merge(old(pages[k]), overlays[k])
      invariant forall k :: i <= k < pages.Length ==> pages[k] == old(pages[k])
    {
      pages[i] := merge(pages[i], overlays[i]);
    }
    MergedPagesEach(old(pages[..]), pages[..], overlays, merge);
  }

  /**
   * `create_cmr_from_template` on an opened template: build one overlay per
   * page (all the same, whatever the page number), then merge overlay i onto
   * page i in place. A missing key fails while building the first overlay,
   * before any page is touched; a template without pages never looks a key up.
   */
  method CreateCmrFromTemplate<P>(pages: array<P>, data: Record, merge: (P, Overlay) -> P)
    returns (r: Result<seq<Overlay>, CmrError>)
    modifies pages
    ensures r.Err? <==> pages.Length > 0 && !Complete(data)
    ensures r.Err? ==> r == Err(OverlayOps(data).error) && pages[..] == old(pages[..])
    ensures r.Ok? ==> |r.value| == pages.Length &&
                      (forall i :: 0 <= i < |r.value| ==> OverlayOps(data) == Ok(r.value[i])) &&
                      pages[..] == MergedPages(old(pages[..]), r.value, merge)
  {
    var textFilled: seq<Overlay> := [];
    for pageNum := 0 to pages.Length
      invariant |textFilled| == pageNum
      invariant forall i :: 0 <= i < pageNum ==> OverlayOps(data) == Ok(textFilled[i])
      invariant pages[..] == old(pages[..])
    {
      var overlay := RenderOverlay(data);
      if overlay.Err? {
        return Err(overlay.error);
      }
      textFilled := textFilled + [overlay.value];
    }
    if pages.Length > 0 {
      assert OverlayOps(data) == Ok(textFilled[0]);
    }
    MergeOverlays(pages, textFilled, merge);
    r := Ok(textFilled);
  }

  // ---------------------------------------------------------------------------
  // The output file name

  const FileNamePrefix := "cmr_filled_"
  const FileNameSuffix := ".pdf"

  /** The output file is named after the dispatch date. */
  function OutputFileName(date: string): (name: string)
    ensures DateOfFileName(name) == Some(date)
  {
    FileNamePrefix + date + FileNameSuffix
  }

  /** The dispatch date a generated file name was made from, if it is one. */
  function DateOfFileName(name: string): Option<string>
  {
    if |name| >= |FileNamePrefix| + |FileNameSuffix| &&
       name[..|FileNamePrefix|] == FileNamePrefix &&
       name[|name| - |FileNameSuffix|..] == FileNameSuffix
    then Some(name[|FileNamePrefix|..|name| - |FileNameSuffix|])
    else None
  }

  /**
   * The name is the prefix, the date and the suffix, and nothing else: the
   * date is recovered from the name, and only generated names give a date.
   * So two dispatch dates never share a file, and the same date reuses it.
   */
  lemma FileNameRoundTrip(date: string, name: string)
    ensures DateOfFileName(OutputFileName(date)) == Some(date)
    ensures DateOfFileName(name) == Some(date) ==> OutputFileName(date) == name
  {
    var generated := OutputFileName(date);
    assert generated[..|FileNamePrefix|] == FileNamePrefix;
    assert generated[|generated| - |FileNameSuffix|..] == FileNameSuffix;
    assert generated[|FileNamePrefix|..|generated| - |FileNameSuffix|] == date;
    if DateOfFileName(name) == Some(date) {
      assert name == name[..|FileNamePrefix|] + name[|FileNamePrefix|..|name| - |FileNameSuffix|]
                     + name[|name| - |FileNameSuffix|..];
    }
  }

  // ---------------------------------------------------------------------------
  // The form: the record it submits and the values it starts with

  /** The record `generate_cmr` builds from the ten entry texts. */
  function FormRecord(entry: Field -> string): (data: Record)
    ensures Complete(data)
    ensures forall f :: data[Key(f)] == entry(f)
    ensures forall k :: k in data ==> exists f :: Key(f) == k
  {
    map[
      "sender" := entry(Sender),
      "receiver" := entry(Receiver),
      "carrier" := entry(Carrier),
      "place_of_loading" := entry(PlaceOfLoading),
      "place_of_unloading" := entry(PlaceOfUnloading),
      "goods" := entry(Goods),
      "weight" := entry(Weight),
      "pieces" := entry(Pieces),
      "date_of_dispatch" := entry(DateOfDispatch),
      "vehicle_number" := entry(VehicleNumber)
    ]
  }

  /** The placeholder an entry starts with when no saved value exists. */
  function Default(f: Field): (r: string)
    ensures r != ""
  {
    match f
    case Sender => "Sender"
    case Receiver => "Receiver"
    case Carrier => "Sender stamp"
    case PlaceOfLoading => "Loading place"
    case PlaceOfUnloading => "Unloading place"
    case Goods => "Goods"
    case Weight => "Weight"
    case Pieces => "City-sender"
    case DateOfDispatch => "dd-mm-yyyy"
    case VehicleNumber => "Truck / Trailer"
  }

  /** `populate_fields`: the saved value of a field, or its placeholder. */
  function Prefill(saved: Record, f: Field): (r: string)
    ensures Key(f) in saved ==> r == saved[Key(f)]
    ensures Key(f) !in saved ==> r == Default(f)
    ensures r == "" ==> Key(f) in saved && saved[Key(f)] == ""
  {
    if Key(f) in saved then saved[Key(f)] else Default(f)
  }

  /**
   * Pre-filling from a saved submission restores every entry exactly; with
   * nothing saved every entry shows its placeholder.
   */
  lemma SaveThenPrefill(entry: Field -> string, f: Field)
    ensures Prefill(FormRecord(entry), f) == entry(f)
    ensures Prefill(map[], f) == Default(f)
  {
  }

  /**
   * `generate_cmr` on an opened template: build the record from the entries,
   * keep it as the saved state, name the output after the dispatch date and
   * merge one overlay of that record onto every page. The record is always
   * complete, so generation never fails on a missing key.
   */
  method GenerateCmr<P>(entry: Field -> string, pages: array<P>, merge: (P, Overlay) -> P)
    returns (saved: Record, outputFile: string)
    modifies pages
    ensures saved == FormRecord(entry)
    ensures outputFile == OutputFileName(entry(DateOfDispatch))
    ensures OverlayOps(saved).Ok?
    ensures forall i :: 0 <= i < pages.Length ==> pages[i] == merge(old(pages[i]), OverlayOps(saved).value)
  {
    var data := FormRecord(entry);
    saved := data;
    var dateToFileName := data[Key(DateOfDispatch)];
    outputFile := FileNamePrefix + dateToFileName + FileNameSuffix;
    var r := CreateCmrFromTemplate(pages, data, merge);
    assert r.Ok?;
    forall i | 0 <= i < pages.Length
      ensures pages[i] == merge(old(pages[i]), OverlayOps(saved).value)
    {
      MergedPagesAt(old(pages[..]), r.value, merge, i);
      assert pages[i] == pages[..][i];
    }
  }
}
