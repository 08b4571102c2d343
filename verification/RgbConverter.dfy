/**
  Packed BGR or BGRX pictures to top-down NV12, on the portable path: two by two pixels at a
  time, four luma bytes and one pair of chroma bytes. Native size, exact half and any other size
  have their own ways to a pixel; all three are the same interpolation.
*/
module RgbConverter {
  import opened Arithmetic
  import opened Bilinear
  import opened ColorTables
  import opened PlanarFormats
  import opened Wrappers

  const OUTPUT_BUDGET: nat := 192 * 1024 * 1024

  datatype Format = Format(width: nat, height: nat, step: nat, topDown: bool, limited: bool, outWidth: nat, outHeight: nat)
  datatype Conversion = Converted | NotConfigured | BufferOverflow | InvalidStream

  predicate Supported(f: Format) {
    && 0 < f.width <= 3840 && 0 < f.height <= 2160 && f.width % 2 == 0 && f.height % 2 == 0 && (f.step == 3 || f.step == 4)
    && 0 < f.outWidth <= f.width && 0 < f.outHeight <= f.height && f.outWidth % 2 == 0 && f.outHeight % 2 == 0
  }

  function BufferCount(frameBytes: nat, budget: nat): nat {
    if frameBytes > 0 && frameBytes <= budget then (if budget / frameBytes < 16 then budget / frameBytes else 16) else 0
  }

  /** The budget holds a full set of buffers for every supported size. */
  lemma BudgetSuffices(f: Format)
    requires Supported(f)
    ensures BufferCount(f.outWidth * f.outHeight * 3 / 2, OUTPUT_BUDGET) == 16
  {
    var bytes := f.outWidth * f.outHeight * 3 / 2;
    Times(f.outWidth, 3840, f.outHeight);
    Times(f.outHeight, 2160, 3840);
    Times(1, f.outWidth, f.outHeight);
    Division(OUTPUT_BUDGET, bytes);
    if OUTPUT_BUDGET / bytes <= 15 { Times(OUTPUT_BUDGET / bytes + 1, 16, bytes); Distribute(OUTPUT_BUDGET / bytes, 1, bytes); }
  }

  // ---- a pixel of the scaled picture ----

  function Address(f: Format, x: nat, y: nat, k: nat): int {
    (if f.topDown then y else f.height - 1 - y) * (f.width * f.step) + x * f.step + k
  }

  function Raw(f: Format, src: seq<Byte>, x: nat, y: nat, k: nat): Byte {
    var at := Address(f, x, y, k);
    if 0 <= at < |src| then src[at] else 0
  }

  function TapAt(i: nat, source: nat, target: nat): (t: Tap)
    requires source > 0 && i < target
    ensures Good(t, source)
  {
    PositionIsCentre(i, source, target);
    var p := Position(i, source, target);
    Tap(p / 256, if p / 256 + 1 < source then p / 256 + 1 else p / 256, p % 256)
  }

  /** The interpolated source at an output pixel. */
  function Interpolated(f: Format, src: seq<Byte>, x: nat, y: nat, k: nat): (v: Byte)
    requires Supported(f) && x < f.outWidth && y < f.outHeight
  {
    var tx, ty := TapAt(x, f.width, f.outWidth), TapAt(y, f.height, f.outHeight);
    var c00, c10, c01, c11 := Raw(f, src, tx.a, ty.a, k), Raw(f, src, tx.b, ty.a, k), Raw(f, src, tx.a, ty.b, k), Raw(f, src, tx.b, ty.b, k);
    MixBetween(c00, c10, c01, c11, tx.weight, ty.weight, 0, 255);
    Mix(c00, c10, c01, c11, tx.weight, ty.weight)
  }

  /** Red is the third byte of a pixel. */
  function Pixel(f: Format, src: seq<Byte>, x: nat, y: nat): Rgb
    requires Supported(f) && x < f.outWidth && y < f.outHeight
  {
    Rgb(Interpolated(f, src, x, y, 2), Interpolated(f, src, x, y, 1), Interpolated(f, src, x, y, 0))
  }

  lemma AddressInRange(f: Format, x: nat, y: nat, k: nat)
    requires Supported(f) && x < f.width && y < f.height && k < 3
    ensures 0 <= Address(f, x, y, k) < f.height * (f.width * f.step)
  {
    Times(x + 1, f.width, f.step);
    Distribute(x, 1, f.step);
    InPicture(if f.topDown then y else f.height - 1 - y, x * f.step + k, f.width * f.step, f.height);
  }

  lemma NativeTap(i: nat, size: nat)
    requires i < size
    ensures TapAt(i, size, size).a == i && TapAt(i, size, size).weight == 0
  {
    SameSize(i, size);
    Quotient(256 * i, 256, i, 0);
  }

  lemma HalfTap(i: nat, target: nat)
    requires i < target
    ensures TapAt(i, 2 * target, target) == Tap(2 * i, 2 * i + 1, 128)
  {
    assert (2 * i + 1) * (2 * target) * 128 == (2 * i + 1) * 256 * target;
    Quotient((2 * i + 1) * (2 * target) * 128, target, (2 * i + 1) * 256, 0);
    Quotient(512 * i + 128, 256, 2 * i, 128);
  }

  lemma NativeMix(a: Byte, b: Byte, c: Byte, d: Byte)
    ensures Mix(a, b, c, d, 0, 0) == a
  {
  }

  function Mean(a: int, b: int, c: int, d: int): int { (a + b + c + d + 2) / 4 }

  lemma HalfMix(a: Byte, b: Byte, c: Byte, d: Byte)
    ensures Mix(a, b, c, d, 128, 128) == Mean(a, b, c, d)
  {
    assert Along(Along(a, b, 128), Along(c, d, 128), 128) + 32768 == 16384 * (a + b + c + d + 2);
  }

  // ---- the bytes of the output ----

  /** The chroma sums over the four pixels of a block. */
  function BlockU(f: Format, src: seq<Byte>, across: nat, down: nat): int
    requires Supported(f) && 2 * across + 1 < f.outWidth && 2 * down + 1 < f.outHeight
  {
    Sum(f.limited, U, Pixel(f, src, 2 * across, 2 * down)) + Sum(f.limited, U, Pixel(f, src, 2 * across + 1, 2 * down))
    + Sum(f.limited, U, Pixel(f, src, 2 * across, 2 * down + 1)) + Sum(f.limited, U, Pixel(f, src, 2 * across + 1, 2 * down + 1))
  }

  function BlockV(f: Format, src: seq<Byte>, across: nat, down: nat): int
    requires Supported(f) && 2 * across + 1 < f.outWidth && 2 * down + 1 < f.outHeight
  {
    Sum(f.limited, V, Pixel(f, src, 2 * across, 2 * down)) + Sum(f.limited, V, Pixel(f, src, 2 * across + 1, 2 * down))
    + Sum(f.limited, V, Pixel(f, src, 2 * across, 2 * down + 1)) + Sum(f.limited, V, Pixel(f, src, 2 * across + 1, 2 * down + 1))
  }

  function CellByte(f: Format, src: seq<Byte>, c: Cell): Byte
    requires Supported(f)
  {
    if !InOutput(f, c) then 0
    else if c.plane == 0 then LumaByte(Sum(f.limited, Y, Pixel(f, src, c.x, c.y)))
    else if c.plane == 1 then ChromaByte(BlockU(f, src, c.x, c.y))
    else ChromaByte(BlockV(f, src, c.x, c.y))
  }

  /** The value the standard gives for the same interpolated pixels. */
  function ExactCell(f: Format, src: seq<Byte>, c: Cell): real
    requires Supported(f)
  {
    if !InOutput(f, c) then 0.0
    else if c.plane == 0 then Exact(f.limited, Y, Pixel(f, src, c.x, c.y))
    else
      var p, q := Pixel(f, src, 2 * c.x, 2 * c.y), Pixel(f, src, 2 * c.x + 1, 2 * c.y);
      var r, s := Pixel(f, src, 2 * c.x, 2 * c.y + 1), Pixel(f, src, 2 * c.x + 1, 2 * c.y + 1);
      if c.plane == 1 then (Exact(f.limited, U, p) + Exact(f.limited, U, q) + Exact(f.limited, U, r) + Exact(f.limited, U, s)) / 4.0
      else (Exact(f.limited, V, p) + Exact(f.limited, V, q) + Exact(f.limited, V, r) + Exact(f.limited, V, s)) / 4.0
  }

  /** No byte of any picture, size or orientation is further from the standard's value than half
      a step and one and a half 65536ths. */
  lemma CellAccurate(f: Format, src: seq<Byte>, c: Cell)
    requires Supported(f)
    ensures -ERROR <= CellByte(f, src, c) as real - ExactCell(f, src, c) <= ERROR
  {
    hide Pixel, LumaByte, ChromaByte, Sum, Exact;
    if !InOutput(f, c) {
    } else if c.plane == 0 {
      LumaAccurate(f.limited, Pixel(f, src, c.x, c.y));
    } else {
      var p, q := Pixel(f, src, 2 * c.x, 2 * c.y), Pixel(f, src, 2 * c.x + 1, 2 * c.y);
      var r, s := Pixel(f, src, 2 * c.x, 2 * c.y + 1), Pixel(f, src, 2 * c.x + 1, 2 * c.y + 1);
      ChromaAccurate(f.limited, U, p, q, r, s);
      ChromaAccurate(f.limited, V, p, q, r, s);
    }
  }

  // ---- the output in terms of the source bytes ----

  /** Channel `k` of the pixel in a column and a displayed row of the source. */
  function SourceByte(f: Format, src: seq<Byte>, column: nat, row: nat, k: nat): Byte
    requires Supported(f) && f.height * (f.width * f.step) <= |src| && column < f.width && row < f.height && k < 3
  {
    AddressInRange(f, column, row, k);
    src[(if f.topDown then row else f.height - 1 - row) * (f.width * f.step) + column * f.step + k]
  }

  /** A channel of an output pixel: its four neighbours in the source, weighted in 256ths by the
      distance of the pixel's centre from theirs, and rounded to the nearest value. */
  ghost predicate Mixed(f: Format, src: seq<Byte>, x: nat, y: nat, k: nat, value: Byte)
    requires Supported(f) && f.height * (f.width * f.step) <= |src| && x < f.outWidth && y < f.outHeight && k < 3
  {
    var cx, cy := Position(x, f.width, f.outWidth), Position(y, f.height, f.outHeight);
    && cx >= 0 && cy >= 0
    && var left: nat, top: nat, wx, wy := cx / 256, cy / 256, cx % 256, cy % 256;
       && left < f.width && top < f.height
       && var right := if left + 1 < f.width then left + 1 else left;
          var bottom := if top + 1 < f.height then top + 1 else top;
          NearestMix(SourceByte(f, src, left, top, k), SourceByte(f, src, right, top, k),
                     SourceByte(f, src, left, bottom, k), SourceByte(f, src, right, bottom, k), wx, wy, value)
  }

  lemma InterpolatedIsMixed(f: Format, src: seq<Byte>, x: nat, y: nat, k: nat)
    requires Supported(f) && f.height * (f.width * f.step) <= |src| && x < f.outWidth && y < f.outHeight && k < 3
    ensures Mixed(f, src, x, y, k, Interpolated(f, src, x, y, k))
  {
    hide SourceByte, Raw, NearestMix;
    var tx, ty := TapAt(x, f.width, f.outWidth), TapAt(y, f.height, f.outHeight);
    RawInRange(f, src, tx.a, ty.a, k);
    RawInRange(f, src, tx.b, ty.a, k);
    RawInRange(f, src, tx.a, ty.b, k);
    RawInRange(f, src, tx.b, ty.b, k);
    RoundedMix(Raw(f, src, tx.a, ty.a, k), Raw(f, src, tx.b, ty.a, k), Raw(f, src, tx.a, ty.b, k), Raw(f, src, tx.b, ty.b, k), tx.weight, ty.weight);
    hide Mix;
  }

  lemma Unmixed(a: Byte, b: Byte, c: Byte, d: Byte, value: Byte)
    requires NearestMix(a, b, c, d, 0, 0, value)
    ensures value == a
  {
  }

  lemma RawInRange(f: Format, src: seq<Byte>, x: nat, y: nat, k: nat)
    requires Supported(f) && f.height * (f.width * f.step) <= |src| && x < f.width && y < f.height && k < 3
    ensures Raw(f, src, x, y, k) == SourceByte(f, src, x, y, k)
  {
    AddressInRange(f, x, y, k);
  }

  lemma NoWeight(i: nat)
    ensures 256 * i / 256 == i && 256 * i % 256 == 0
  {
  }

  /** At native size a mixed channel is the source byte itself. */
  lemma NativeMixed(f: Format, src: seq<Byte>, x: nat, y: nat, k: nat, value: Byte)
    requires Supported(f) && f.height * (f.width * f.step) <= |src| && x < f.outWidth && y < f.outHeight && k < 3
    requires f.width == f.outWidth && f.height == f.outHeight && Mixed(f, src, x, y, k, value)
    ensures value == SourceByte(f, src, x, y, k)
  {
    hide SourceByte;
    SameSize(x, f.width);
    SameSize(y, f.height);
    var right, bottom := if x + 1 < f.width then x + 1 else x, if y + 1 < f.height then y + 1 else y;
    NoWeight(x);
    NoWeight(y);
    Unmixed(SourceByte(f, src, x, y, k), SourceByte(f, src, right, y, k), SourceByte(f, src, x, bottom, k),
            SourceByte(f, src, right, bottom, k), value);
  }

  /** Every luma byte of a picture: the source pixel it comes from, or the mix of its four
      neighbours, and how far it is from what the standard gives for that pixel. Red is the third
      byte of a pixel and blue the first. */
  lemma LumaOfSource(f: Format, src: seq<Byte>, dst: seq<Byte>, x: nat, y: nat) returns (p: Rgb)
    requires Supported(f) && f.height * (f.width * f.step) <= |src| && |dst| == OutSize(f)
    requires forall k :: 0 <= k < |dst| ==> dst[k] == CellByte(f, src, OutOwner(f, k))
    requires x < f.outWidth && y < f.outHeight
    ensures Mixed(f, src, x, y, 2, p.r) && Mixed(f, src, x, y, 1, p.g) && Mixed(f, src, x, y, 0, p.b)
    ensures f.width == f.outWidth && f.height == f.outHeight ==>
              var at := (if f.topDown then y else f.height - 1 - y) * (f.width * f.step) + x * f.step;
              0 <= at && at + 2 < |src| && p == Rgb(src[at + 2], src[at + 1], src[at])
    ensures 0 <= y * f.outWidth + x < |dst|
    ensures -ERROR <= dst[y * f.outWidth + x] as real
                      - Coded(Y, Level(f.limited, p.r), Level(f.limited, p.g), Level(f.limited, p.b)) <= ERROR
  {
    hide Interpolated, Mixed, SourceByte, OutSize, OutOwner, LumaByte, Sum, Coded, Level, Supported;
    p := PixelOfSource(f, src, x, y);
    CellIsThere(f, Cell(0, x, y));
    LumaAccurate(f.limited, p);
  }

  lemma PixelOfSource(f: Format, src: seq<Byte>, x: nat, y: nat) returns (p: Rgb)
    requires Supported(f) && f.height * (f.width * f.step) <= |src| && x < f.outWidth && y < f.outHeight
    ensures p == Pixel(f, src, x, y)
    ensures Mixed(f, src, x, y, 2, p.r) && Mixed(f, src, x, y, 1, p.g) && Mixed(f, src, x, y, 0, p.b)
    ensures f.width == f.outWidth && f.height == f.outHeight ==>
              var at := (if f.topDown then y else f.height - 1 - y) * (f.width * f.step) + x * f.step;
              0 <= at && at + 2 < |src| && p == Rgb(src[at + 2], src[at + 1], src[at])
  {
    hide Interpolated, Mixed;
    p := Pixel(f, src, x, y);
    InterpolatedIsMixed(f, src, x, y, 2);
    InterpolatedIsMixed(f, src, x, y, 1);
    InterpolatedIsMixed(f, src, x, y, 0);
    if f.width == f.outWidth && f.height == f.outHeight {
      NativeMixed(f, src, x, y, 2, p.r);
      NativeMixed(f, src, x, y, 1, p.g);
      NativeMixed(f, src, x, y, 0, p.b);
      AddressInRange(f, x, y, 2);
      AddressInRange(f, x, y, 0);
    }
  }

  /** Every chroma byte likewise, for the mean of its two by two pixels. */
  lemma ChromaOfSource(f: Format, src: seq<Byte>, dst: seq<Byte>, red: bool, across: nat, down: nat) returns (ps: seq<Rgb>)
    requires Supported(f) && f.height * (f.width * f.step) <= |src| && |dst| == OutSize(f)
    requires forall k :: 0 <= k < |dst| ==> dst[k] == CellByte(f, src, OutOwner(f, k))
    requires 2 * across < f.outWidth && 2 * down < f.outHeight
    ensures 2 * across + 1 < f.outWidth && 2 * down + 1 < f.outHeight && |ps| == 4
    ensures forall i :: 0 <= i < 4 ==>
              var p, x, y := ps[i], 2 * across + i % 2, 2 * down + i / 2;
              && Mixed(f, src, x, y, 2, p.r) && Mixed(f, src, x, y, 1, p.g) && Mixed(f, src, x, y, 0, p.b)
              && (f.width == f.outWidth && f.height == f.outHeight ==>
                    var at := (if f.topDown then y else f.height - 1 - y) * (f.width * f.step) + x * f.step;
                    0 <= at && at + 2 < |src| && p == Rgb(src[at + 2], src[at + 1], src[at]))
    ensures var uv := f.outWidth * f.outHeight + down * f.outWidth + 2 * across;
            0 <= uv && uv + 1 < |dst|
            && var c: Component := if red then V else U;
               var e0 := Coded(c, Level(f.limited, ps[0].r), Level(f.limited, ps[0].g), Level(f.limited, ps[0].b));
               var e1 := Coded(c, Level(f.limited, ps[1].r), Level(f.limited, ps[1].g), Level(f.limited, ps[1].b));
               var e2 := Coded(c, Level(f.limited, ps[2].r), Level(f.limited, ps[2].g), Level(f.limited, ps[2].b));
               var e3 := Coded(c, Level(f.limited, ps[3].r), Level(f.limited, ps[3].g), Level(f.limited, ps[3].b));
               -ERROR <= dst[if red then uv + 1 else uv] as real - (e0 + e1 + e2 + e3) / 4.0 <= ERROR
  {
    hide Interpolated, Pixel, Mixed, OutSize, OutOwner, ChromaByte, Sum, Coded, Level, Supported;
    BlockInOutput(f, across, down);
    var p := PixelOfSource(f, src, 2 * across, 2 * down);
    var q := PixelOfSource(f, src, 2 * across + 1, 2 * down);
    var r := PixelOfSource(f, src, 2 * across, 2 * down + 1);
    var s := PixelOfSource(f, src, 2 * across + 1, 2 * down + 1);
    ps := [p, q, r, s];
    ChromaPlaces(f, across, down);
    CellIsThere(f, Cell(if red then 2 else 1, across, down));
    ChromaAccurate(f.limited, if red then V else U, p, q, r, s);
  }

  function OutSize(f: Format): nat { f.outWidth * f.outHeight * 3 / 2 }

  function OutOwner(f: Format, k: nat): Cell
    requires Supported(f)
  {
    Owner(true, f.outHeight, f.outWidth, k)
  }

  /** The two-by-two block a byte belongs to. */
  function Block(c: Cell): (nat, nat) { if c.plane == 0 then (c.x / 2, c.y / 2) else (c.x, c.y) }

  /** Where the cells of a block lie. */
  function CellOffset(f: Format, c: Cell): nat {
    if c.plane == 0 then c.y * f.outWidth + c.x else f.outWidth * f.outHeight + c.y * f.outWidth + 2 * c.x + c.plane - 1
  }

  predicate InOutput(f: Format, c: Cell) {
    c.plane < 3 && (if c.plane == 0 then c.x < f.outWidth && c.y < f.outHeight else c.x < f.outWidth / 2 && c.y < f.outHeight / 2)
  }

  /** Cells and bytes match one to one. */
  lemma CellIsThere(f: Format, c: Cell)
    requires Supported(f) && InOutput(f, c)
    ensures 0 <= CellOffset(f, c) < OutSize(f) && OutOwner(f, CellOffset(f, c)) == c
  {
    hide OwnerAt;
    var row := if c.plane > 0 then f.outHeight + c.y else c.y;
    var column := Column(true, c.plane, c.x);
    ColumnOwner(true, f.outHeight, c);
    SizeByRows(f);
    Distribute(f.outHeight, c.y, f.outWidth);
    InPicture(row, column, f.outWidth, OutRows(f));
    Quotient(CellOffset(f, c), f.outWidth, row, column);
  }

  /** Luma rows and half as many of chroma. */
  function OutRows(f: Format): nat { f.outHeight * 3 / 2 }

  lemma SizeByRows(f: Format)
    requires Supported(f)
    ensures OutSize(f) == OutRows(f) * f.outWidth
  {
    var half := f.outHeight / 2;
    assert f.outHeight == 2 * half;
    assert f.outWidth * (2 * half) * 3 == 2 * (3 * half * f.outWidth);
  }

  lemma OwnedCell(f: Format, row: nat, column: nat)
    requires Supported(f) && row < OutRows(f) && column < f.outWidth
    ensures var c := OwnerAt(true, f.outHeight, row, column);
            InOutput(f, c) && CellOffset(f, c) == row * f.outWidth + column
  {
    hide OwnerAt;
    OwnerColumn(true, f.outHeight, row, column);
    var c := OwnerAt(true, f.outHeight, row, column);
    if c.plane > 0 { Distribute(f.outHeight, c.y, f.outWidth); }
  }

  lemma ByteIsCell(f: Format, k: nat)
    requires Supported(f) && k < OutSize(f)
    ensures InOutput(f, OutOwner(f, k)) && CellOffset(f, OutOwner(f, k)) == k
  {
    hide OwnerAt, OutSize, OutRows, CellOffset, InOutput;
    SizeByRows(f);
    RowInPicture(k, f.outWidth, OutRows(f));
    OwnedCell(f, k / f.outWidth, k % f.outWidth);
  }

  lemma ChromaPlaces(f: Format, across: nat, down: nat)
    requires Supported(f) && 2 * across < f.outWidth && 2 * down < f.outHeight
    ensures var uv := f.outWidth * f.outHeight + down * f.outWidth + 2 * across;
            CellOffset(f, Cell(1, across, down)) == uv && CellOffset(f, Cell(2, across, down)) == uv + 1
            && 0 <= uv && uv + 1 < OutSize(f)
  {
    CellIsThere(f, Cell(1, across, down));
    CellIsThere(f, Cell(2, across, down));
  }

  /** A byte belongs to a block just when it lies at one of the block's six places. */
  lemma BlockPlaces(f: Format, k: nat, across: nat, down: nat)
    requires Supported(f) && k < OutSize(f) && 2 * across < f.outWidth && 2 * down < f.outHeight
    ensures Block(OutOwner(f, k)) == (across, down) <==> OutOwner(f, k) in BlockCells(across, down)
    ensures forall c :: c in BlockCells(across, down) ==> (OutOwner(f, k) == c <==> k == CellOffset(f, c))
  {
    hide OutOwner, OutSize, CellOffset;
    ByteIsCell(f, k);
    forall c | c in BlockCells(across, down) ensures OutOwner(f, CellOffset(f, c)) == c {
      CellIsThere(f, c);
    }
  }

  function BlockCells(across: nat, down: nat): seq<Cell> {
    [Cell(0, 2 * across, 2 * down), Cell(0, 2 * across + 1, 2 * down), Cell(0, 2 * across, 2 * down + 1),
     Cell(0, 2 * across + 1, 2 * down + 1), Cell(1, across, down), Cell(2, across, down)]
  }

  lemma BlockInOutput(f: Format, across: nat, down: nat)
    requires Supported(f) && 2 * across < f.outWidth && 2 * down < f.outHeight
    ensures 2 * across + 1 < f.outWidth && 2 * down + 1 < f.outHeight
    ensures forall c :: c in BlockCells(across, down) ==> InOutput(f, c)
  {
  }

  // ---- the converter ----

  /** The table of one channel: `Fixed` at every code value. */
  ghost predicate TableOf(t: seq<int>, limited: bool, component: Component, channel: Channel) {
    |t| == 256 && forall n: Byte :: t[n] == Fixed(limited, component, channel, n)
  }

  ghost predicate TapsOf(taps: seq<Tap>, source: nat, target: nat)
    requires source > 0
  {
    |taps| == target && forall i :: 0 <= i < target ==> taps[i] == TapAt(i, source, target)
  }

  method BuildTable(limited: bool, component: Component, channel: Channel) returns (t: seq<int>)
    ensures TableOf(t, limited, component, channel)
  {
    t := [];
    for n := 0 to 256
      invariant |t| == n && forall k: Byte :: k < n ==> t[k] == Fixed(limited, component, channel, k)
    {
      var value := n as real;
      if limited {
        value := (n - 16) as real * 255.0 / 219.0;
        value := if value < 0.0 then 0.0 else if value > 255.0 then 255.0 else value;
      }
      assert value == Level(limited, n);
      t := t + [Nearest(Share(component, channel, value))];
    }
  }

  method BuildTaps(source: nat, target: nat) returns (taps: seq<Tap>)
    requires source > 0
    ensures TapsOf(taps, source, target)
  {
    taps := Taps(source, target);
    forall i | 0 <= i < target ensures taps[i] == TapAt(i, source, target) {
      Quotient(Position(i, source, target), 256, taps[i].a, taps[i].weight);
    }
  }

  method BuildTables(limited: bool, c: Component) returns (r: seq<int>, g: seq<int>, b: seq<int>)
    ensures TableOf(r, limited, c, Red) && TableOf(g, limited, c, Green) && TableOf(b, limited, c, Blue)
  {
    hide TableOf;
    r := BuildTable(limited, c, Red);
    g := BuildTable(limited, c, Green);
    b := BuildTable(limited, c, Blue);
  }

  class Converter {
    var width: int
    var ready: bool
    var format: Format
    var x: seq<Tap>
    var rows: seq<Tap>
    var yr: seq<int>
    var yg: seq<int>
    var yb: seq<int>
    var ur: seq<int>
    var ug: seq<int>
    var ub: seq<int>
    var vr: seq<int>
    var vg: seq<int>
    var vb: seq<int>

    ghost predicate Tables()
      reads this
    {
      && TableOf(yr, format.limited, Y, Red) && TableOf(yg, format.limited, Y, Green)
      && TableOf(yb, format.limited, Y, Blue) && TableOf(ur, format.limited, U, Red)
      && TableOf(ug, format.limited, U, Green) && TableOf(ub, format.limited, U, Blue)
      && TableOf(vr, format.limited, V, Red) && TableOf(vg, format.limited, V, Green)
      && TableOf(vb, format.limited, V, Blue)
    }

    ghost predicate Valid()
      reads this
    {
      ready ==>
        && Supported(format) && width == format.width && Tables()
        && TapsOf(x, format.width, format.outWidth) && TapsOf(rows, format.height, format.outHeight)
    }

    constructor ()
      ensures Valid() && !ready && width == 0
    {
      width, ready := 0, false;
      format := Format(0, 0, 0, true, false, 0, 0);
      x, rows := [], [];
      yr, yg, yb, ur, ug, ub, vr, vg, vb := [], [], [], [], [], [], [], [], [];
    }

    /** Accepts exactly the supported formats; an absent output size is the input's. */
    method Configure(width': int, height: int, step: int, topDown: bool, limited: bool, outWidth: int, outHeight: int)
      returns (ok: bool)
      requires Valid()
      modifies this
      ensures Valid() && ok == ready
      ensures var w, h := if outWidth == 0 then width' else outWidth, if outHeight == 0 then height else outHeight;
              ok <==> width' >= 0 && height >= 0 && step >= 0 && w >= 0 && h >= 0
                      && Supported(Format(width', height, step, topDown, limited, w, h))
      ensures var w, h := if outWidth == 0 then width' else outWidth, if outHeight == 0 then height else outHeight;
              ok ==> format == Format(width', height, step, topDown, limited, w, h)
    {
      ready, width, x, rows := false, 0, [], [];
      if width' <= 0 || height <= 0 || width' > 3840 || height > 2160 || width' % 2 != 0 || height % 2 != 0 || (step != 3 && step != 4) {
        return false;
      }
      width := width';
      var w, h := if outWidth != 0 then outWidth else width', if outHeight != 0 then outHeight else height;
      if w <= 0 || h <= 0 || w > width' || h > height || w % 2 != 0 || h % 2 != 0 { return false; }
      hide TapsOf, TableOf;
      ok := Prepare(Format(width', height, step, topDown, limited, w, h));
    }

    /** The buffers a supported format needs are always within the budget. */
    method Prepare(f: Format) returns (ok: bool)
      requires Supported(f) && width == f.width
      modifies `format, `ready, `x, `rows, `yr, `yg, `yb, `ur, `ug, `ub, `vr, `vg, `vb
      ensures ok && ready && format == f && Valid()
    {
      hide TapsOf, TableOf, BufferCount;
      format := f;
      x := BuildTaps(f.width, f.outWidth);
      rows := BuildTaps(f.height, f.outHeight);
      SetTables();
      BudgetSuffices(format);
      ready := BufferCount(f.outWidth * f.outHeight * 3 / 2, OUTPUT_BUDGET) >= 4;
      ok := ready;
    }

    method SetTables()
      modifies `yr, `yg, `yb, `ur, `ug, `ub, `vr, `vg, `vb
      ensures Tables()
    {
      hide TableOf;
      yr, yg, yb := BuildTables(format.limited, Y);
      ur, ug, ub := BuildTables(format.limited, U);
      vr, vg, vb := BuildTables(format.limited, V);
    }

    method Native(src: seq<Byte>, px: nat, py: nat, k: nat) returns (c: Byte)
      requires Valid() && ready && px < format.outWidth && py < format.outHeight && k < 3
      requires format.width == format.outWidth && format.height == format.outHeight
      requires format.height * (format.width * format.step) <= |src|
      ensures c == Interpolated(format, src, px, py, k)
    {
      hide TapAt, Mix, TapsOf, TableOf, Address;
      var f := format;
      AddressInRange(f, px, py, k);
      NativeTap(px, f.width);
      NativeTap(py, f.height);
      c := src[Address(f, px, py, k)];
      var tx, ty := TapAt(px, f.width, f.width), TapAt(py, f.height, f.height);
      NativeMix(c, Raw(f, src, tx.b, ty.a, k), Raw(f, src, tx.a, ty.b, k), Raw(f, src, tx.b, ty.b, k));
    }

    method Half(src: seq<Byte>, px: nat, py: nat, k: nat) returns (c: Byte)
      requires Valid() && ready && px < format.outWidth && py < format.outHeight && k < 3
      requires format.width == 2 * format.outWidth && format.height == 2 * format.outHeight
      requires format.height * (format.width * format.step) <= |src|
      ensures c == Interpolated(format, src, px, py, k)
    {
      hide TapAt, Mix, TapsOf, TableOf, Address;
      var f := format;
      AddressInRange(f, 2 * px, 2 * py, k);
      AddressInRange(f, 2 * px + 1, 2 * py, k);
      AddressInRange(f, 2 * px, 2 * py + 1, k);
      AddressInRange(f, 2 * px + 1, 2 * py + 1, k);
      HalfTap(px, f.outWidth);
      HalfTap(py, f.outHeight);
      var a, b := src[Address(f, 2 * px, 2 * py, k)], src[Address(f, 2 * px + 1, 2 * py, k)];
      var d, e := src[Address(f, 2 * px, 2 * py + 1, k)], src[Address(f, 2 * px + 1, 2 * py + 1, k)];
      HalfMix(a, b, d, e);
      c := Mean(a, b, d, e);
    }

    method Any(src: seq<Byte>, px: nat, py: nat, k: nat) returns (c: Byte)
      requires Valid() && ready && px < format.outWidth && py < format.outHeight && k < 3
      requires format.height * (format.width * format.step) <= |src|
      ensures c == Interpolated(format, src, px, py, k)
    {
      hide TapAt, TableOf, Address, Supported;
      var f, tx, ty := format, x[px], rows[py];
      AddressInRange(f, tx.a, ty.a, k);
      AddressInRange(f, tx.b, ty.a, k);
      AddressInRange(f, tx.a, ty.b, k);
      AddressInRange(f, tx.b, ty.b, k);
      var a, b := src[Address(f, tx.a, ty.a, k)], src[Address(f, tx.b, ty.a, k)];
      var d, e := src[Address(f, tx.a, ty.b, k)], src[Address(f, tx.b, ty.b, k)];
      var top := a * (256 - tx.weight) + b * tx.weight;
      var bottom := d * (256 - tx.weight) + e * tx.weight;
      MixBetween(a, b, d, e, tx.weight, ty.weight, 0, 255);
      c := (top * (256 - ty.weight) + bottom * ty.weight + 32768) / 65536;
    }

    method ReadChannel(src: seq<Byte>, px: nat, py: nat, k: nat) returns (c: Byte)
      requires Valid() && ready && px < format.outWidth && py < format.outHeight && k < 3
      requires format.height * (format.width * format.step) <= |src|
      ensures c == Interpolated(format, src, px, py, k)
    {
      hide Interpolated, Tables, TapsOf;
      if format.width == format.outWidth && format.height == format.outHeight {
        c := Native(src, px, py, k);
      } else if format.width == format.outWidth * 2 && format.height == format.outHeight * 2 {
        c := Half(src, px, py, k);
      } else {
        c := Any(src, px, py, k);
      }
    }

    /** One pixel: its luma byte goes out, its chroma is added up. */
    method OnePixel(src: seq<Byte>, px: nat, py: nat, dst: array<Byte>) returns (du: int, dv: int)
      requires Valid() && ready && px < format.outWidth && py < format.outHeight && dst.Length == OutSize(format)
      requires format.height * (format.width * format.step) <= |src|
      modifies dst
      ensures var at := CellOffset(format, Cell(0, px, py));
              0 <= at < dst.Length && dst[..] == old(dst[..])[at := LumaByte(Sum(format.limited, Y, Pixel(format, src, px, py)))]
      ensures du == Sum(format.limited, U, Pixel(format, src, px, py)) && dv == Sum(format.limited, V, Pixel(format, src, px, py))
    {
      hide Interpolated, TapsOf, Fixed, OutSize, OutOwner, Supported, Round;
      var b := ReadChannel(src, px, py, 0);
      var g := ReadChannel(src, px, py, 1);
      var r := ReadChannel(src, px, py, 2);
      var yy := yr[r] + yg[g] + yb[b];
      CellIsThere(format, Cell(0, px, py));
      dst[py * format.outWidth + px] := LumaByte(yy);
      du, dv := ur[r] + ug[g] + ub[b], vr[r] + vg[g] + vb[b];
    }

    method OneBlock(src: seq<Byte>, across: nat, down: nat, dst: array<Byte>)
      requires Valid() && ready && 2 * across < format.outWidth && 2 * down < format.outHeight && dst.Length == OutSize(format)
      requires format.height * (format.width * format.step) <= |src|
      modifies dst
      ensures forall k :: 0 <= k < dst.Length ==>
                var c := OutOwner(format, k);
                dst[k] == if Block(c) == (across, down) then CellByte(format, src, c) else old(dst[k])
    {
      hide Pixel, OutSize, OutOwner, LumaByte, ChromaByte, Sum, TapsOf, Tables, CellOffset, Block, InOutput, Supported;
      var f, px, py := format, 2 * across, 2 * down;
      BlockInOutput(f, across, down);
      ghost var s0 := dst[..];
      var u0, v0 := OnePixel(src, px, py, dst);
      var u1, v1 := OnePixel(src, px + 1, py, dst);
      var u2, v2 := OnePixel(src, px, py + 1, dst);
      var u3, v3 := OnePixel(src, px + 1, py + 1, dst);
      ChromaPlaces(f, across, down);
      var uv := f.outWidth * f.outHeight + down * f.outWidth + px;
      dst[uv] := ChromaByte(u0 + u1 + u2 + u3);
      dst[uv + 1] := ChromaByte(v0 + v1 + v2 + v3);
      forall k | 0 <= k < dst.Length
        ensures dst[k] == if Block(OutOwner(f, k)) == (across, down) then CellByte(f, src, OutOwner(f, k)) else s0[k]
      {
        BlockPlaces(f, k, across, down);
      }
    }

    method BlockRow(src: seq<Byte>, down: nat, dst: array<Byte>)
      requires Valid() && ready && 2 * down < format.outHeight && dst.Length == OutSize(format)
      requires format.height * (format.width * format.step) <= |src|
      modifies dst
      ensures forall k :: 0 <= k < dst.Length ==>
                var c := OutOwner(format, k);
                dst[k] == if Block(c).1 == down then CellByte(format, src, c) else old(dst[k])
    {
      hide OutSize, OutOwner, CellByte, Block, TapsOf, Tables;
      ghost var before := dst[..];
      for across := 0 to format.outWidth / 2
        invariant forall k :: 0 <= k < dst.Length ==>
                    var c := OutOwner(format, k);
                    dst[k] == if Block(c).1 == down && Block(c).0 < across then CellByte(format, src, c) else before[k]
      {
        OneBlock(src, across, down, dst);
      }
      forall k | 0 <= k < dst.Length ensures Block(OutOwner(format, k)).0 < format.outWidth / 2 {
        BlockInPicture(k);
      }
    }

    lemma BlockInPicture(k: nat)
      requires Supported(format) && k < OutSize(format)
      ensures var c := OutOwner(format, k);
              0 <= Block(c).0 < format.outWidth / 2 && 0 <= Block(c).1 < format.outHeight / 2
    {
      hide OutSize, OutOwner, CellOffset;
      ByteIsCell(format, k);
    }

    /** Not configured, no buffer and too short a frame are told apart; otherwise every byte of
        the output is its cell's, from the frame alone. */
    method Apply(src: seq<Byte>, target: Option<array<Byte>>) returns (conversion: Conversion)
      requires Valid()
      requires target.Some? ==> ready && target.value.Length == OutSize(format)
      modifies if target.Some? then {target.value} else {}
      ensures conversion ==
              if width == 0 then NotConfigured
              else if target.None? then BufferOverflow
              else if |src| < format.height * (format.width * format.step) then InvalidStream
              else Converted
      ensures conversion == Converted ==>
                forall k :: 0 <= k < target.value.Length ==> target.value[k] == CellByte(format, src, OutOwner(format, k))
      ensures conversion != Converted && target.Some? ==> target.value[..] == old(target.value[..])
    {
      hide OutSize, OutOwner, CellByte, Block, TapsOf, Tables;
      if width == 0 { return NotConfigured; }
      if target.None? { return BufferOverflow; }
      if |src| < format.width * format.step * format.height { return InvalidStream; }
      for down := 0 to format.outHeight / 2
        invariant forall k :: 0 <= k < target.value.Length ==>
                    var c := OutOwner(format, k);
                    Block(c).1 < down ==> target.value[k] == CellByte(format, src, c)
      {
        BlockRow(src, down, target.value);
      }
      forall k | 0 <= k < target.value.Length ensures Block(OutOwner(format, k)).1 < format.outHeight / 2 {
        BlockInPicture(k);
      }
      conversion := Converted;
    }
  }
}
