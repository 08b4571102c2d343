/**
  Bilinear interpolation in 256ths of a pixel: which two source positions a target position lies
  between, and how four samples are mixed. Both the plane scaler and the RGB converter use it.
*/
module Bilinear {
  import opened Arithmetic

  type Byte = x: int | 0 <= x < 256
  datatype Tap = Tap(a: nat, b: nat, weight: nat)

  function Clamp(v: int, low: int, high: int): int {
    if v < low then low else if high < v then high else v
  }

  function Position(i: nat, source: nat, target: nat): int
    requires target > 0
  {
    Clamp((2 * i + 1) * source * 128 / target - 128, 0, (source - 1) * 256)
  }

  /** Two neighbouring source positions, or twice the last one, and the place between them. */
  predicate Good(t: Tap, source: nat) {
    t.a <= t.b < source && t.weight < 256 && t.b == (if t.a + 1 < source then t.a + 1 else t.a)
  }

  method Taps(source: nat, target: nat) returns (taps: seq<Tap>)
    requires source > 0
    ensures |taps| == target && (forall i :: 0 <= i < target ==> Good(taps[i], source))
    ensures forall i :: 0 <= i < target ==> 256 * taps[i].a + taps[i].weight == Position(i, source, target)
  {
    taps := [];
    for i := 0 to target
      invariant |taps| == i && (forall k :: 0 <= k < i ==> Good(taps[k], source))
      invariant forall k :: 0 <= k < i ==> 256 * taps[k].a + taps[k].weight == Position(k, source, target)
    {
      var p := Clamp((2 * i + 1) * source * 128 / target - 128, 0, (source - 1) * 256);
      taps := taps + [Tap(p / 256, if p / 256 + 1 < source then p / 256 + 1 else source - 1, p % 256)];
    }
  }

  /** Target centre `i + 1/2` lies at source centre `p/256 + 1/2`, but for the last 256th and the
      ends of the source: `(2i + 1) * source * 128` is `256 * target` times the exact place. */
  lemma PositionIsCentre(i: nat, source: nat, target: nat)
    requires source > 0 && i < target
    ensures var p, exact := Position(i, source, target), (2 * i + 1) * source * 128;
            && 0 <= p <= (source - 1) * 256
            && (p == 0 || (p + 128) * target <= exact)
            && (p == (source - 1) * 256 || exact < (p + 129) * target)
  {
    var exact := (2 * i + 1) * source * 128;
    Division(exact, target);
    Distribute(exact / target, 1, target);
    var p := Position(i, source, target);
    if p > 0 { Times(p + 128, exact / target, target); }
    if p < (source - 1) * 256 { Times(exact / target + 1, p + 129, target); }
  }

  lemma PositionOrdered(i: nat, j: nat, source: nat, target: nat)
    requires source > 0 && i <= j < target
    ensures Position(i, source, target) <= Position(j, source, target)
  {
    var x, y := (2 * i + 1) * source * 128, (2 * j + 1) * source * 128;
    Times(2 * i + 1, 2 * j + 1, source);
    DivideOrdered(x, y, target);
  }

  /** At the same size every target position is its own source position. */
  lemma SameSize(i: nat, size: nat)
    requires i < size
    ensures Position(i, size, size) == 256 * i
  {
    Quotient((2 * i + 1) * size * 128, size, (2 * i + 1) * 128, 0);
  }

  function Along(a: int, b: int, weight: nat): int
    requires weight < 256
  {
    a * (256 - weight) + b * weight
  }

  function Mix(a: Byte, b: Byte, c: Byte, d: Byte, wx: nat, wy: nat): int
    requires wx < 256 && wy < 256
  {
    (Along(Along(a, b, wx), Along(c, d, wx), wy) + 32768) / 65536
  }

  lemma MixWritten(a: Byte, b: Byte, c: Byte, d: Byte, wx: nat, wy: nat)
    requires wx < 256 && wy < 256
    ensures var top, bottom := a * (256 - wx) + b * wx, c * (256 - wx) + d * wx;
            Mix(a, b, c, d, wx, wy) == (top * (256 - wy) + bottom * wy + 32768) / 65536
  {
  }

  lemma Whole(v: int, weight: nat)
    requires weight < 256
    ensures v * (256 - weight) + v * weight == 256 * v
  {
  }

  lemma AlongBetween(a: int, b: int, weight: nat, low: int, high: int)
    requires weight < 256 && low <= a <= high && low <= b <= high
    ensures 256 * low <= Along(a, b, weight) <= 256 * high
  {
    Times(low, a, 256 - weight);
    Times(low, b, weight);
    Times(a, high, 256 - weight);
    Times(b, high, weight);
    Whole(low, weight);
    Whole(high, weight);
  }

  /** The mix lies between the four samples: equal samples are kept, and it is a byte again. */
  lemma MixBetween(a: Byte, b: Byte, c: Byte, d: Byte, wx: nat, wy: nat, low: int, high: int)
    requires wx < 256 && wy < 256
    requires low <= a <= high && low <= b <= high && low <= c <= high && low <= d <= high
    ensures low <= Mix(a, b, c, d, wx, wy) <= high
  {
    hide Along;
    AlongBetween(a, b, wx, low, high);
    AlongBetween(c, d, wx, low, high);
    AlongBetween(Along(a, b, wx), Along(c, d, wx), wy, 256 * low, 256 * high);
  }

  /** The value is the nearest to the samples above and below, each mixed from left and right. */
  ghost predicate NearestMix(a: Byte, b: Byte, c: Byte, d: Byte, wx: nat, wy: nat, value: int) {
    var above, below := a * (256 - wx) + b * wx, c * (256 - wx) + d * wx;
    -32768 <= above * (256 - wy) + below * wy - 65536 * value < 32768
  }

  lemma RoundedMix(a: Byte, b: Byte, c: Byte, d: Byte, wx: nat, wy: nat)
    requires wx < 256 && wy < 256
    ensures NearestMix(a, b, c, d, wx, wy, Mix(a, b, c, d, wx, wy))
  {
    var above, below := a * (256 - wx) + b * wx, c * (256 - wx) + d * wx;
    Division(above * (256 - wy) + below * wy + 32768, 65536);
  }

  /** Between two equal rows the value follows the straight line from left to right, between two
      equal columns the one from top to bottom; at the first sample it is that sample. */
  lemma MixFollows(a: Byte, b: Byte, c: Byte, d: Byte, wx: nat, wy: nat, value: int)
    requires wx < 256 && wy < 256
    ensures NearestMix(a, b, a, b, wx, wy, value) ==> -128 <= 256 * (value - a) - (b - a) * wx <= 128
    ensures NearestMix(a, a, c, c, wx, wy, value) ==> -128 <= 256 * (value - a) - (c - a) * wy <= 128
    ensures NearestMix(a, b, c, d, 0, 0, value) ==> value == a
  {
    Line(a, b, wx);
    Line(a * 256, c * 256, wy);
    Line(a * (256 - wx) + b * wx, a * (256 - wx) + b * wx, wy);
    Line(a, a, wx);
    Line(c, c, wx);
    Line(a, c, wy);
  }

  lemma Line(a: int, b: int, weight: nat)
    ensures a * (256 - weight) + b * weight == 256 * a + (b - a) * weight
    ensures 256 * a * (256 - weight) + 256 * b * weight == 256 * (a * (256 - weight) + b * weight)
  {
  }
}
