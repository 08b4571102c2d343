/**
  The recorder's bilinear downscale of NV12 and YUY2 pictures. Each picture is three planes of
  samples lying between each other in memory; a plane's place and step are set once, and a frame
  may have any row pitch that holds a packed row.
*/
module Scaler {
  import opened Arithmetic
  import opened Bilinear
  import opened PlanarFormats
  import opened Wrappers

  datatype Layout = Layout(nv12: bool, width: nat, height: nat, outWidth: nat, outHeight: nat)
  datatype Plane = Plane(sourceRow: nat, sourceColumn: nat, targetOffset: nat, targetStride: nat, step: nat,
                         width: nat, height: nat, x: seq<Tap>, y: seq<Tap>)
  datatype Outcome = Same | Scaled | InvalidData | NoBuffer

  /** Even sizes, as the recorder's settings demand. */
  predicate Even(l: Layout) {
    l.width > 0 && l.height > 0 && l.outWidth > 0 && l.outHeight > 0
    && l.width % 2 == 0 && l.height % 2 == 0 && l.outWidth % 2 == 0 && l.outHeight % 2 == 0
  }

  function PackedStride(l: Layout): nat { if l.nv12 then l.width else 2 * l.width }
  function SourceRows(l: Layout): nat { if l.nv12 then l.height * 3 / 2 else l.height }
  function TargetStride(l: Layout): nat { if l.nv12 then l.outWidth else 2 * l.outWidth }
  function TargetRows(l: Layout): nat { if l.nv12 then l.outHeight * 3 / 2 else l.outHeight }
  function Size(l: Layout): nat { TargetRows(l) * TargetStride(l) }

  function TargetOwner(l: Layout, k: nat): Cell
    requires Even(l)
  {
    Owner(l.nv12, l.outHeight, TargetStride(l), k)
  }

  ghost predicate InLayout(l: Layout, c: Cell) {
    && c.plane < 3
    && c.x < (if c.plane == 0 then l.outWidth else l.outWidth / 2)
    && c.y < (if c.plane == 0 || !l.nv12 then l.outHeight else l.outHeight / 2)
  }

  // ---- what Configure sets up ----

  ghost predicate PlaneFits(p: Plane, l: Layout, index: nat)
    requires index < 3
  {
    var chroma := index > 0;
    var sw, dw := if chroma then l.width / 2 else l.width, if chroma then l.outWidth / 2 else l.outWidth;
    var sh := if chroma && l.nv12 then l.height / 2 else l.height;
    var dh := if chroma && l.nv12 then l.outHeight / 2 else l.outHeight;
    && p.sourceRow == (if chroma && l.nv12 then l.height else 0)
    && p.sourceColumn == (if !chroma then 0 else if l.nv12 then index - 1 else 2 * index - 1)
    && p.step == (if l.nv12 then (if chroma then 2 else 1) else if chroma then 4 else 2)
    && p.targetStride == TargetStride(l)
    && p.targetOffset == (if chroma && l.nv12 then l.outHeight * l.outWidth else 0) + p.sourceColumn
    && p.width == dw == |p.x| && p.height == dh == |p.y|
    && (forall i :: 0 <= i < dw ==> Good(p.x[i], sw) && 256 * p.x[i].a + p.x[i].weight == Position(i, sw, dw))
    && (forall j :: 0 <= j < dh ==> Good(p.y[j], sh) && 256 * p.y[j].a + p.y[j].weight == Position(j, sh, dh))
  }

  ghost predicate Fits(planes: seq<Plane>, l: Layout) {
    Even(l) && |planes| == 3 && forall i :: 0 <= i < 3 ==> PlaneFits(planes[i], l, i)
  }

  function Offset(p: Plane, x: nat, y: nat): nat {
    p.targetOffset + y * p.targetStride + x * p.step
  }

  /** A sample of a source plane. */
  function Address(p: Plane, pitch: nat, column: nat, row: nat): nat {
    p.sourceRow * pitch + p.sourceColumn + row * pitch + column * p.step
  }

  lemma OffsetRow(p: Plane, l: Layout, index: nat, x: nat, y: nat)
    requires Even(l) && index < 3 && PlaneFits(p, l, index) && x < p.width && y < p.height
    ensures var row := y + (if index > 0 && l.nv12 then l.outHeight else 0);
            var column := p.sourceColumn + x * p.step;
            row < TargetRows(l) && column < TargetStride(l) && Offset(p, x, y) == row * TargetStride(l) + column
  {
    hide Good, Position;
    if index > 0 && l.nv12 { Distribute(y, l.outHeight, l.outWidth); }
  }

  lemma PlaceOwner(p: Plane, l: Layout, index: nat, x: nat, y: nat)
    requires Even(l) && index < 3 && PlaneFits(p, l, index) && x < p.width && y < p.height
    ensures var row := y + (if index > 0 && l.nv12 then l.outHeight else 0);
            OwnerAt(l.nv12, l.outHeight, row, p.sourceColumn + x * p.step) == Cell(index, x, y)
  {
    hide Good, Position, OwnerAt;
    ColumnOwner(l.nv12, l.outHeight, Cell(index, x, y));
  }

  /** The cell a plane writes to is the byte's owner in the format, inside the picture. */
  lemma OwnerOfOffset(p: Plane, l: Layout, index: nat, x: nat, y: nat)
    requires Even(l) && index < 3 && PlaneFits(p, l, index) && x < p.width && y < p.height
    ensures Offset(p, x, y) < Size(l) && TargetOwner(l, Offset(p, x, y)) == Cell(index, x, y)
  {
    hide Good, Position, Offset, OwnerAt, PlaneFits;
    OffsetRow(p, l, index, x, y);
    PlaceOwner(p, l, index, x, y);
    var row := y + (if index > 0 && l.nv12 then l.outHeight else 0);
    var column := p.sourceColumn + x * p.step;
    InPicture(row, column, TargetStride(l), TargetRows(l));
    Quotient(Offset(p, x, y), TargetStride(l), row, column);
  }

  lemma OwnerInPlane(planes: seq<Plane>, l: Layout, row: nat, column: nat)
    requires Fits(planes, l) && row < TargetRows(l) && column < TargetStride(l)
    ensures var c := OwnerAt(l.nv12, l.outHeight, row, column);
            InLayout(l, c) && Offset(planes[c.plane], c.x, c.y) == row * TargetStride(l) + column
  {
    hide Good, Position, OwnerAt, Offset;
    OwnerColumn(l.nv12, l.outHeight, row, column);
    var c := OwnerAt(l.nv12, l.outHeight, row, column);
    OffsetRow(planes[c.plane], l, c.plane, c.x, c.y);
  }

  /** Every byte of the target is some plane's cell, and the only one there: with the lemma
      before, planes, columns and rows on one side and bytes on the other match one to one. */
  lemma OffsetOfOwner(planes: seq<Plane>, l: Layout, k: nat)
    requires Fits(planes, l) && k < Size(l)
    ensures var c := TargetOwner(l, k); InLayout(l, c) && Offset(planes[c.plane], c.x, c.y) == k
  {
    hide Offset, OwnerAt, Fits, InLayout, TargetRows, TargetStride;
    RowInPicture(k, TargetStride(l), TargetRows(l));
    OwnerInPlane(planes, l, k / TargetStride(l), k % TargetStride(l));
  }

  lemma SourcePlaceOwner(p: Plane, l: Layout, index: nat, pitch: nat, column: nat, row: nat)
    requires Even(l) && index < 3 && PlaneFits(p, l, index) && pitch >= PackedStride(l)
    requires column < (if index > 0 then l.width / 2 else l.width)
    requires row < (if index > 0 && l.nv12 then l.height / 2 else l.height)
    ensures p.sourceRow + row < SourceRows(l) && p.sourceColumn + column * p.step < pitch
    ensures OwnerAt(l.nv12, l.height, p.sourceRow + row, p.sourceColumn + column * p.step) == Cell(index, column, row)
  {
    hide Good, Position, OwnerAt;
    ColumnOwner(l.nv12, l.height, Cell(index, column, row));
  }

  /** A sample belongs, in the source, to the very plane, column and row it is read for. */
  lemma AddressInSource(p: Plane, l: Layout, index: nat, pitch: nat, column: nat, row: nat)
    requires Even(l) && index < 3 && PlaneFits(p, l, index) && pitch >= PackedStride(l)
    requires column < (if index > 0 then l.width / 2 else l.width)
    requires row < (if index > 0 && l.nv12 then l.height / 2 else l.height)
    ensures Address(p, pitch, column, row) < SourceRows(l) * pitch
    ensures Owner(l.nv12, l.height, pitch, Address(p, pitch, column, row)) == Cell(index, column, row)
  {
    hide Good, Position, OwnerAt, PlaneFits;
    Distribute(p.sourceRow, row, pitch);
    SourcePlaceOwner(p, l, index, pitch, column, row);
    InPicture(p.sourceRow + row, p.sourceColumn + column * p.step, pitch, SourceRows(l));
    Quotient(Address(p, pitch, column, row), pitch, p.sourceRow + row, p.sourceColumn + column * p.step);
  }

  // ---- the value of a cell ----

  function Sample(src: seq<Byte>, p: Plane, pitch: nat, column: nat, row: nat): Byte {
    if Address(p, pitch, column, row) < |src| then src[Address(p, pitch, column, row)] else 0
  }

  function CellValue(src: seq<Byte>, planes: seq<Plane>, pitch: nat, c: Cell): int {
    if c.plane < |planes| && c.x < |planes[c.plane].x| && c.y < |planes[c.plane].y|
       && planes[c.plane].x[c.x].weight < 256 && planes[c.plane].y[c.y].weight < 256 then
      var p := planes[c.plane];
      var tx, ty := p.x[c.x], p.y[c.y];
      Mix(Sample(src, p, pitch, tx.a, ty.a), Sample(src, p, pitch, tx.b, ty.a),
          Sample(src, p, pitch, tx.a, ty.b), Sample(src, p, pitch, tx.b, ty.b), tx.weight, ty.weight)
    else 0
  }

  /** The byte a source sample of a plane is, by the format alone. */
  function Component(src: seq<Byte>, l: Layout, pitch: nat, c: Cell): Byte {
    var row := if l.nv12 && c.plane > 0 then l.height + c.y else c.y;
    var column := Column(l.nv12, c.plane, c.x);
    if row * pitch + column < |src| && column >= 0 then src[row * pitch + column] else 0
  }

  lemma SampleIsComponent(src: seq<Byte>, planes: seq<Plane>, l: Layout, pitch: nat, c: Cell)
    requires Fits(planes, l) && c.plane < 3
    ensures Sample(src, planes[c.plane], pitch, c.x, c.y) == Component(src, l, pitch, c)
  {
    hide Good, Position;
    Distribute(planes[c.plane].sourceRow, c.y, pitch);
  }

  ghost predicate Around(planes: seq<Plane>, c: Cell, x: nat, y: nat) {
    && c.plane < |planes| && c.x < |planes[c.plane].x| && c.y < |planes[c.plane].y|
    && x in {planes[c.plane].x[c.x].a, planes[c.plane].x[c.x].b}
    && y in {planes[c.plane].y[c.y].a, planes[c.plane].y[c.y].b}
  }

  /** Each value lies between samples of its own component around it, so an even plane stays even. */
  lemma ValueBetween(src: seq<Byte>, planes: seq<Plane>, l: Layout, pitch: nat, c: Cell, low: int, high: int)
    requires Fits(planes, l) && InLayout(l, c)
    requires forall x: nat, y: nat :: Around(planes, c, x, y) ==> low <= Component(src, l, pitch, Cell(c.plane, x, y)) <= high
    ensures low <= CellValue(src, planes, pitch, c) <= high
  {
    hide Position, Component, Sample, Mix;
    var p := planes[c.plane];
    var tx, ty := p.x[c.x], p.y[c.y];
    SampleIsComponent(src, planes, l, pitch, Cell(c.plane, tx.a, ty.a));
    SampleIsComponent(src, planes, l, pitch, Cell(c.plane, tx.b, ty.a));
    SampleIsComponent(src, planes, l, pitch, Cell(c.plane, tx.a, ty.b));
    SampleIsComponent(src, planes, l, pitch, Cell(c.plane, tx.b, ty.b));
    MixBetween(Sample(src, p, pitch, tx.a, ty.a), Sample(src, p, pitch, tx.b, ty.a),
               Sample(src, p, pitch, tx.a, ty.b), Sample(src, p, pitch, tx.b, ty.b), tx.weight, ty.weight, low, high);
  }

  // ---- the target in terms of the source bytes ----

  /** Where a format keeps a sample: NV12 has rows of luma and then rows of U and V in turn, YUY2
      has Y U Y V in every row. */
  function SampleAt(nv12: bool, lumaRows: nat, pitch: nat, plane: nat, column: nat, row: nat): nat {
    if nv12 then (if plane == 0 then row * pitch + column
                  else if plane == 1 then (lumaRows + row) * pitch + 2 * column
                  else (lumaRows + row) * pitch + 2 * column + 1)
    else (if plane == 0 then row * pitch + 2 * column
          else if plane == 1 then row * pitch + 4 * column + 1
          else row * pitch + 4 * column + 3)
  }

  lemma AddressIsPlace(p: Plane, l: Layout, index: nat, pitch: nat, column: nat, row: nat)
    requires Even(l) && index < 3 && PlaneFits(p, l, index)
    ensures Address(p, pitch, column, row) == SampleAt(l.nv12, l.height, pitch, index, column, row)
  {
    hide Good, Position;
    Distribute(l.height, row, pitch);
  }

  lemma OffsetIsPlace(p: Plane, l: Layout, index: nat, x: nat, y: nat)
    requires Even(l) && index < 3 && PlaneFits(p, l, index)
    ensures Offset(p, x, y) == SampleAt(l.nv12, l.outHeight, if l.nv12 then l.outWidth else 2 * l.outWidth, index, x, y)
  {
    hide Good, Position;
    Distribute(l.outHeight, y, l.outWidth);
  }

  /** Four samples of a plane around a target sample, weighted in 256ths by the distance of its
      centre from theirs, and rounded to the nearest value. */
  ghost predicate Weighted(l: Layout, src: seq<Byte>, pitch: nat, plane: nat, x: nat, y: nat, value: int)
    requires Even(l) && plane < 3
  {
    var sw, dw := if plane > 0 then l.width / 2 else l.width, if plane > 0 then l.outWidth / 2 else l.outWidth;
    var sh := if plane > 0 && l.nv12 then l.height / 2 else l.height;
    var dh := if plane > 0 && l.nv12 then l.outHeight / 2 else l.outHeight;
    && x < dw && y < dh
    && var cx, cy := Position(x, sw, dw), Position(y, sh, dh);
       && cx >= 0 && cy >= 0
       && var left: nat, top: nat, wx: nat, wy: nat := cx / 256, cy / 256, cx % 256, cy % 256;
          var right, bottom := if left + 1 < sw then left + 1 else left, if top + 1 < sh then top + 1 else top;
          var nw, ne := SampleAt(l.nv12, l.height, pitch, plane, left, top), SampleAt(l.nv12, l.height, pitch, plane, right, top);
          var sw', se := SampleAt(l.nv12, l.height, pitch, plane, left, bottom), SampleAt(l.nv12, l.height, pitch, plane, right, bottom);
          && nw < |src| && ne < |src| && sw' < |src| && se < |src|
          && NearestMix(src[nw], src[ne], src[sw'], src[se], wx, wy, value)
  }

  lemma CellIsWeighted(src: seq<Byte>, planes: seq<Plane>, l: Layout, pitch: nat, index: nat, x: nat, y: nat)
    requires Fits(planes, l) && index < 3 && x < planes[index].width && y < planes[index].height
    requires pitch >= PackedStride(l) && SourceRows(l) * pitch <= |src|
    ensures Weighted(l, src, pitch, index, x, y, CellValue(src, planes, pitch, Cell(index, x, y)))
  {
    hide Address, SampleAt, Owner, Sample, SourceRows, PackedStride, Position, Mix, PlaneFits, NearestMix;
    var p := planes[index];
    PlaneTaps(p, l, index, x, y);
    var tx, ty := p.x[x], p.y[y];
    TapParts(tx, x, if index > 0 then l.width / 2 else l.width, if index > 0 then l.outWidth / 2 else l.outWidth);
    TapParts(ty, y, if index > 0 && l.nv12 then l.height / 2 else l.height, if index > 0 && l.nv12 then l.outHeight / 2 else l.outHeight);
    SampleThere(src, p, l, index, pitch, tx.a, ty.a);
    SampleThere(src, p, l, index, pitch, tx.b, ty.a);
    SampleThere(src, p, l, index, pitch, tx.a, ty.b);
    SampleThere(src, p, l, index, pitch, tx.b, ty.b);
    RoundedMix(Sample(src, p, pitch, tx.a, ty.a), Sample(src, p, pitch, tx.b, ty.a),
               Sample(src, p, pitch, tx.a, ty.b), Sample(src, p, pitch, tx.b, ty.b), tx.weight, ty.weight);
  }

  lemma PlaneTaps(p: Plane, l: Layout, index: nat, x: nat, y: nat)
    requires Even(l) && index < 3 && PlaneFits(p, l, index) && x < p.width && y < p.height
    ensures x < |p.x| && x < (if index > 0 then l.outWidth / 2 else l.outWidth)
    ensures y < |p.y| && y < (if index > 0 && l.nv12 then l.outHeight / 2 else l.outHeight)
    ensures var sw, dw := if index > 0 then l.width / 2 else l.width, if index > 0 then l.outWidth / 2 else l.outWidth;
            sw > 0 && Good(p.x[x], sw) && 256 * p.x[x].a + p.x[x].weight == Position(x, sw, dw)
    ensures var sh := if index > 0 && l.nv12 then l.height / 2 else l.height;
            var dh := if index > 0 && l.nv12 then l.outHeight / 2 else l.outHeight;
            sh > 0 && Good(p.y[y], sh) && 256 * p.y[y].a + p.y[y].weight == Position(y, sh, dh)
  {
    hide Good, Position;
  }

  /** A tap is the position in whole positions and 256ths. */
  lemma TapParts(t: Tap, i: nat, source: nat, target: nat)
    requires source > 0 && i < target && Good(t, source) && 256 * t.a + t.weight == Position(i, source, target)
    ensures var p := Position(i, source, target); p >= 0 && p / 256 == t.a && p % 256 == t.weight
  {
    Quotient(Position(i, source, target), 256, t.a, t.weight);
  }

  lemma SampleThere(src: seq<Byte>, p: Plane, l: Layout, index: nat, pitch: nat, column: nat, row: nat)
    requires Even(l) && index < 3 && PlaneFits(p, l, index) && pitch >= PackedStride(l) && SourceRows(l) * pitch <= |src|
    requires column < (if index > 0 then l.width / 2 else l.width)
    requires row < (if index > 0 && l.nv12 then l.height / 2 else l.height)
    ensures SampleAt(l.nv12, l.height, pitch, index, column, row) < |src|
    ensures Sample(src, p, pitch, column, row) == src[SampleAt(l.nv12, l.height, pitch, index, column, row)]
  {
    hide PlaneFits, SampleAt, Owner;
    AddressInSource(p, l, index, pitch, column, row);
    AddressIsPlace(p, l, index, pitch, column, row);
  }

  /** Every sample of a scaled picture, whatever the format, the sizes and the pitch: where it is,
      and that it is the weighted mean of the samples around it in the same plane. */
  lemma ScaledFromSource(src: seq<Byte>, planes: seq<Plane>, l: Layout, pitch: nat, dst: seq<Byte>, plane: nat, x: nat, y: nat)
    requires Fits(planes, l) && pitch >= (if l.nv12 then l.width else 2 * l.width)
    requires (if l.nv12 then l.height * 3 / 2 else l.height) * pitch <= |src|
    requires |dst| == (if l.nv12 then l.outWidth * l.outHeight * 3 / 2 else 2 * l.outWidth * l.outHeight)
    requires forall k :: 0 <= k < |dst| ==> dst[k] == CellValue(src, planes, pitch, TargetOwner(l, k))
    requires plane < 3 && x < (if plane > 0 then l.outWidth / 2 else l.outWidth)
    requires y < (if plane > 0 && l.nv12 then l.outHeight / 2 else l.outHeight)
    ensures SampleAt(l.nv12, l.outHeight, if l.nv12 then l.outWidth else 2 * l.outWidth, plane, x, y) < |dst|
    ensures Weighted(l, src, pitch, plane, x, y,
                     dst[SampleAt(l.nv12, l.outHeight, if l.nv12 then l.outWidth else 2 * l.outWidth, plane, x, y)])
  {
    hide Good, Position, CellValue, TargetOwner, Offset, SampleAt, Weighted;
    SizeIs(l);
    OwnerOfOffset(planes[plane], l, plane, x, y);
    OffsetIsPlace(planes[plane], l, plane, x, y);
    CellIsWeighted(src, planes, l, pitch, plane, x, y);
  }

  lemma SizeIs(l: Layout)
    requires Even(l)
    ensures Size(l) == (if l.nv12 then l.outWidth * l.outHeight * 3 / 2 else 2 * l.outWidth * l.outHeight)
  {
    var half := l.outHeight / 2;
    assert l.outHeight == 2 * half;
    assert l.outWidth * (2 * half) * 3 == 2 * (3 * half * l.outWidth);
  }

  class RecordingScaler {
    var planes: seq<Plane>
    var size: nat
    var packedStride: nat
    var sourceRows: nat
    ghost var layout: Layout

    ghost predicate Valid()
      reads this
    {
      && Even(layout) && packedStride == PackedStride(layout) && sourceRows == SourceRows(layout)
      && (if layout.width == layout.outWidth && layout.height == layout.outHeight then planes == []
          else Fits(planes, layout) && size == Size(layout))
    }

    method Configure(nv12: bool, width: nat, height: nat, outWidth: nat, outHeight: nat)
      requires Even(Layout(nv12, width, height, outWidth, outHeight))
      modifies this
      ensures Valid() && layout == Layout(nv12, width, height, outWidth, outHeight)
    {
      var l := Layout(nv12, width, height, outWidth, outHeight);
      layout := l;
      planes, size := [], 0;
      packedStride := width * (if nv12 then 1 else 2);
      sourceRows := if nv12 then height * 3 / 2 else height;
      if width == outWidth && height == outHeight { return; }
      Add(planes, l);
    }

    method Add(none: seq<Plane>, l: Layout)
      requires none == [] && Even(l)
      modifies `planes, `size
      ensures Fits(planes, l) && size == Size(l)
    {
      hide Good, Position;
      var x := Taps(l.width, l.outWidth);
      var y := Taps(l.height, l.outHeight);
      var halfX := Taps(l.width / 2, l.outWidth / 2);
      if l.nv12 {
        var halfY := Taps(l.height / 2, l.outHeight / 2);
        planes := none + [Plane(0, 0, 0, l.outWidth, 1, l.outWidth, l.outHeight, x, y)];
        planes := planes + [Plane(l.height, 0, l.outHeight * l.outWidth, l.outWidth, 2, l.outWidth / 2, l.outHeight / 2, halfX, halfY)];
        planes := planes + [Plane(l.height, 1, l.outHeight * l.outWidth + 1, l.outWidth, 2, l.outWidth / 2, l.outHeight / 2, halfX, halfY)];
        size := l.outWidth * l.outHeight * 3 / 2;
        Halved(l.outHeight, l.outWidth);
      } else {
        planes := none + [Plane(0, 0, 0, l.outWidth * 2, 2, l.outWidth, l.outHeight, x, y)];
        planes := planes + [Plane(0, 1, 1, l.outWidth * 2, 4, l.outWidth / 2, l.outHeight, halfX, y)];
        planes := planes + [Plane(0, 3, 3, l.outWidth * 2, 4, l.outWidth / 2, l.outHeight, halfX, y)];
        size := l.outWidth * l.outHeight * 2;
      }
    }

    lemma Halved(rows: nat, stride: nat)
      requires rows % 2 == 0
      ensures stride * rows * 3 / 2 == rows * 3 / 2 * stride
    {
      var half := rows / 2;
      assert rows == 2 * half;
      assert stride * (2 * half) * 3 == 2 * (3 * half * stride);
    }

    method ScaleCell(src: seq<Byte>, pitch: nat, index: nat, x: nat, y: nat) returns (value: Byte)
      requires Fits(planes, layout) && index < 3 && x < planes[index].width && y < planes[index].height
      requires pitch >= PackedStride(layout) && SourceRows(layout) * pitch <= |src|
      ensures value == CellValue(src, planes, pitch, Cell(index, x, y))
    {
      hide Position, Mix, SourceRows, PackedStride;
      var p := planes[index];
      var tx, ty := p.x[x], p.y[y];
      AddressInSource(p, layout, index, pitch, tx.a, ty.a);
      AddressInSource(p, layout, index, pitch, tx.b, ty.a);
      AddressInSource(p, layout, index, pitch, tx.a, ty.b);
      AddressInSource(p, layout, index, pitch, tx.b, ty.b);
      var plane := p.sourceRow * pitch + p.sourceColumn;
      var a, b := plane + ty.a * pitch, plane + ty.b * pitch;
      var c00, c10, c01, c11 := src[a + tx.a * p.step], src[a + tx.b * p.step], src[b + tx.a * p.step], src[b + tx.b * p.step];
      var top := c00 * (256 - tx.weight) + c10 * tx.weight;
      var bottom := c01 * (256 - tx.weight) + c11 * tx.weight;
      MixBetween(c00, c10, c01, c11, tx.weight, ty.weight, 0, 255);
      MixWritten(c00, c10, c01, c11, tx.weight, ty.weight);
      value := (top * (256 - ty.weight) + bottom * ty.weight + 32768) / 65536;
    }

    method ScaleRow(src: seq<Byte>, pitch: nat, index: nat, y: nat, dst: array<Byte>)
      requires Fits(planes, layout) && index < 3 && y < planes[index].height && dst.Length == Size(layout)
      requires pitch >= PackedStride(layout) && SourceRows(layout) * pitch <= |src|
      modifies dst
      ensures forall k :: 0 <= k < dst.Length ==>
                var c := TargetOwner(layout, k);
                dst[k] == if c.plane == index && c.y == y then CellValue(src, planes, pitch, c) else old(dst[k])
    {
      hide Good, Position, CellValue, Offset, TargetOwner, Size, InLayout;
      ghost var before := dst[..];
      for x := 0 to planes[index].width
        invariant forall k :: 0 <= k < dst.Length ==>
                    var c := TargetOwner(layout, k);
                    dst[k] == if c.plane == index && c.y == y && c.x < x then CellValue(src, planes, pitch, c) else before[k]
      {
        var value := ScaleCell(src, pitch, index, x, y);
        OwnerOfOffset(planes[index], layout, index, x, y);
        dst[Offset(planes[index], x, y)] := value;
        forall k | 0 <= k < dst.Length
          ensures TargetOwner(layout, k) == Cell(index, x, y) ==> k == Offset(planes[index], x, y)
        {
          OffsetOfOwner(planes, layout, k);
        }
      }
      forall k | 0 <= k < dst.Length
        ensures TargetOwner(layout, k).plane == index && TargetOwner(layout, k).y == y ==> TargetOwner(layout, k).x < planes[index].width
      {
        OffsetOfOwner(planes, layout, k);
        CellInPlane(TargetOwner(layout, k));
      }
    }

    lemma CellInPlane(c: Cell)
      requires Fits(planes, layout) && InLayout(layout, c)
      ensures c.plane < 3 && c.x < planes[c.plane].width && c.y < planes[c.plane].height
    {
      hide Good, Position;
    }

    method ScalePlane(src: seq<Byte>, pitch: nat, index: nat, dst: array<Byte>)
      requires Fits(planes, layout) && index < 3 && dst.Length == Size(layout)
      requires pitch >= PackedStride(layout) && SourceRows(layout) * pitch <= |src|
      modifies dst
      ensures forall k :: 0 <= k < dst.Length ==>
                var c := TargetOwner(layout, k);
                dst[k] == if c.plane == index then CellValue(src, planes, pitch, c) else old(dst[k])
    {
      hide PlaneFits, CellValue, TargetOwner, Size, InLayout;
      ghost var before := dst[..];
      for y := 0 to planes[index].height
        invariant forall k :: 0 <= k < dst.Length ==>
                    var c := TargetOwner(layout, k);
                    dst[k] == if c.plane == index && c.y < y then CellValue(src, planes, pitch, c) else before[k]
      {
        ScaleRow(src, pitch, index, y, dst);
      }
      forall k | 0 <= k < dst.Length
        ensures TargetOwner(layout, k).plane == index ==> TargetOwner(layout, k).y < planes[index].height
      {
        OffsetOfOwner(planes, layout, k);
        CellInPlane(TargetOwner(layout, k));
      }
    }

    /** Every byte of the target is the value of the cell it is in the format. */
    method Scale(src: seq<Byte>, pitch: nat, dst: array<Byte>)
      requires Fits(planes, layout) && dst.Length == Size(layout)
      requires pitch >= PackedStride(layout) && SourceRows(layout) * pitch <= |src|
      modifies dst
      ensures forall k :: 0 <= k < dst.Length ==> dst[k] == CellValue(src, planes, pitch, TargetOwner(layout, k))
    {
      hide PlaneFits, CellValue, TargetOwner, Size, InLayout;
      for index := 0 to 3
        invariant forall k :: 0 <= k < dst.Length ==>
                    TargetOwner(layout, k).plane < index ==> dst[k] == CellValue(src, planes, pitch, TargetOwner(layout, k))
      {
        ScalePlane(src, pitch, index, dst);
      }
      forall k | 0 <= k < dst.Length ensures TargetOwner(layout, k).plane < 3 {
        OffsetOfOwner(planes, layout, k);
        CellInPlane(TargetOwner(layout, k));
      }
    }

    /** At native size the frame passes through; otherwise a frame with a stride must be large
        enough for it, and without one the caller promises packed rows. */
    method Apply(src: seq<Byte>, sourceStride: int, target: Option<array<Byte>>) returns (outcome: Outcome)
      requires Valid()
      requires target.Some? ==> target.value.Length == size
      requires sourceStride == 0 && planes != [] ==> sourceRows * packedStride <= |src|
      modifies if target.Some? then {target.value} else {}
      ensures planes == [] ==> outcome == if sourceStride != 0 && sourceStride != packedStride then InvalidData else Same
      ensures planes != [] ==>
                outcome ==
                if sourceStride != 0 && (sourceStride < packedStride || sourceStride % 2 == 1) then InvalidData
                else if target.None? then NoBuffer
                else if sourceRows * sourceStride > |src| then InvalidData
                else Scaled
      ensures outcome != Scaled && target.Some? ==> target.value[..] == old(target.value[..])
      ensures outcome == Scaled ==>
                var pitch := if sourceStride == 0 then packedStride else sourceStride;
                forall k :: 0 <= k < size ==> target.value[k] == CellValue(src, planes, pitch, TargetOwner(layout, k))
    {
      if planes == [] {
        return if sourceStride != 0 && sourceStride != packedStride then InvalidData else Same;
      }
      hide PlaneFits, CellValue, TargetOwner, Size;
      var pitch := if sourceStride != 0 then sourceStride else packedStride;
      if sourceStride != 0 && (pitch < packedStride || pitch % 2 == 1) { return InvalidData; }
      if target.None? { return NoBuffer; }
      if sourceStride != 0 && sourceRows * pitch > |src| { return InvalidData; }
      Scale(src, pitch, target.value);
      outcome := Scaled;
    }
  }
}
