/**
  The drift-correcting resampler: it reads the never-ending captured stream at positions that
  advance by a ratio close to one, but only keeps the part of the stream it still needs.
  Positions are reals and the windowed-sinc filter is a parameter.
*/
module Resampler {
  import PcmRing

  type Sample = seq<int>  // one frame: a value per channel

  const HALF_TAPS: int := 8
  const HISTORY: int := 16

  /** The filter applied around an absolute position of a stream. */
  function FilterAt(stream: seq<Sample>, p: real, filter: (seq<Sample>, real) -> Sample): Sample
    requires InBounds(stream, p)
  {
    var center := (p - 8.0).Floor;
    filter(stream[center - 7..center + 9], p - 8.0 - center as real)
  }

  predicate InBounds(stream: seq<Sample>, p: real) {
    var center := (p - 8.0).Floor;
    center >= 7 && center + 8 < |stream|
  }

  /** Where output `j` is read: the stream position 16, plus the ratios of the outputs before. */
  ghost function Position(ratios: seq<real>, j: nat): real
    requires j <= |ratios|
  {
    if j == 0 then 16.0 else Position(ratios, j - 1) + ratios[j - 1]
  }

  /** A position `n` outputs further on. */
  function Ahead(p: real, r: real, n: nat): real {
    p + r * n as real
  }

  function Repeat(x: Sample, n: nat): (r: seq<Sample>)
    ensures |r| == n
  {
    seq(n, _ => x)
  }

  /** The first `n` frames of interleaved samples. */
  function Frames(flat: seq<int>, channels: nat, n: nat): seq<Sample>
    decreases n
  {
    if n == 0 || |flat| < channels then [] else [flat[..channels]] + Frames(flat[channels..], channels, n - 1)
  }

  lemma {:induction false} FramesLength(flat: seq<int>, channels: nat, n: nat)
    requires |flat| >= n * channels
    ensures |Frames(flat, channels, n)| == n
    decreases n
  {
    if n > 0 {
      PcmRing.Scale(n - 1, 1, channels);
      FramesLength(flat[channels..], channels, n - 1);
    }
  }

  /** `k` times `size`, one at a time. */
  function Multiple(k: nat, size: nat): nat { if k == 0 then 0 else size + Multiple(k - 1, size) }

  lemma {:induction false} MultipleIs(k: nat, size: nat)
    ensures Multiple(k, size) == k * size
  {
    if k > 0 {
      MultipleIs(k - 1, size);
      PcmRing.Scale(k - 1, 1, size);
    }
  }

  lemma {:induction false} FramesInPlace(flat: seq<int>, channels: nat, n: nat, i: nat)
    requires |flat| >= Multiple(n, channels) && i < n
    ensures |Frames(flat, channels, n)| == n && Multiple(i, channels) + channels <= |flat|
    ensures Frames(flat, channels, n)[i] == flat[Multiple(i, channels)..Multiple(i, channels) + channels]
    decreases n
  {
    var rest, after := flat[channels..], Frames(flat[channels..], channels, n - 1);
    assert Frames(flat, channels, n) == [flat[..channels]] + after;
    if i > 0 {
      FramesInPlace(rest, channels, n - 1, i - 1);
      var k := Multiple(i - 1, channels);
      assert rest[k..k + channels] == flat[channels + k..channels + k + channels];
    } else if n > 1 {
      FramesInPlace(rest, channels, n - 1, 0);
    }
  }

  /** Frame `i` is made of the samples at its place. */
  lemma FramesAt(flat: seq<int>, channels: nat, n: nat, i: nat)
    requires |flat| >= n * channels && i < n
    ensures |Frames(flat, channels, n)| == n && 0 <= i * channels <= i * channels + channels <= |flat|
    ensures Frames(flat, channels, n)[i] == flat[i * channels..i * channels + channels]
  {
    hide Frames, Multiple;
    MultipleIs(n, channels);
    MultipleIs(i, channels);
    FramesInPlace(flat, channels, n, i);
  }

  lemma {:induction false} FramesJoin(a: seq<int>, b: seq<int>, channels: nat, k: nat, m: nat)
    requires channels > 0 && |a| == k * channels
    ensures Frames(a + b, channels, k + m) == Frames(a, channels, k) + Frames(b, channels, m)
  {
    if k == 0 {
      assert a + b == b;
    } else {
      PcmRing.Scale(k - 1, 1, channels);
      FramesJoin(a[channels..], b, channels, k - 1, m);
      assert (a + b)[channels..] == a[channels..] + b && (a + b)[..channels] == a[..channels];
      assert k + m - 1 == k - 1 + m;
      assert Frames(a + b, channels, k + m) == [a[..channels]] + Frames(a[channels..] + b, channels, k - 1 + m);
    }
  }

  /** Cutting between two frames. */
  lemma FramesCut(flat: seq<int>, channels: nat, n: nat, k: nat)
    requires channels > 0 && |flat| == n * channels && k <= n
    ensures k * channels <= |flat| && |Frames(flat[..k * channels], channels, k)| == k
    ensures Frames(flat, channels, n)
         == Frames(flat[..k * channels], channels, k) + Frames(flat[k * channels..], channels, n - k)
  {
    PcmRing.Scale(k, n, channels);
    FramesLength(flat[..k * channels], channels, k);
    assert flat == flat[..k * channels] + flat[k * channels..];
    FramesJoin(flat[..k * channels], flat[k * channels..], channels, k, n - k);
  }

  lemma FloorShift(x: real, n: int)
    ensures (x - n as real).Floor == x.Floor - n
  {
    assert (x - n as real).Floor as real <= x - n as real < (x - n as real).Floor as real + 1.0;
    assert x.Floor as real <= x < x.Floor as real + 1.0;
  }

  lemma FloorStep(x: real, r: real)
    requires 0.999 <= r <= 1.001
    ensures x.Floor <= (x + r).Floor <= x.Floor + 2
  {
  }

  lemma StepBounds(source: seq<Sample>, p: real, r: real, filter: (seq<Sample>, real) -> Sample)
    requires InBounds(source, p) && p >= 16.0 && 0.999 <= r <= 1.001
    ensures var c := (p - 8.0).Floor;
            c >= 7 && c + 9 <= |source| && FilterAt(source, p, filter) == filter(source[c - 7..c + 9], p - 8.0 - c as real)
    ensures p + r >= 16.0 && (p + r).Floor <= |source| + 1
  {
    FloorShift(p, 8);
    FloorStep(p, r);
  }

  /** A window of a suffix is a window of the whole stream. */
  lemma SuffixFilter(stream: seq<Sample>, dropped: nat, source: seq<Sample>, p: real, filter: (seq<Sample>, real) -> Sample)
    requires dropped <= |stream| && source == stream[dropped..]
    requires InBounds(source, p)
    ensures InBounds(stream, p + dropped as real)
    ensures FilterAt(source, p, filter) == FilterAt(stream, p + dropped as real, filter)
  {
    var q := p + dropped as real;
    FloorShift(q - 8.0, dropped);
    assert q - 8.0 - dropped as real == p - 8.0;
    var c := (p - 8.0).Floor;
    assert (q - 8.0).Floor == c + dropped;
    assert source[c - 7..c + 9] == stream[c + dropped - 7..c + dropped + 9];
  }

  lemma GrownFilter(stream: seq<Sample>, more: seq<Sample>, p: real, filter: (seq<Sample>, real) -> Sample)
    requires InBounds(stream, p)
    ensures InBounds(stream + more, p) && FilterAt(stream + more, p, filter) == FilterAt(stream, p, filter)
  {
    var c := (p - 8.0).Floor;
    assert (stream + more)[c - 7..c + 9] == stream[c - 7..c + 9];
  }

  lemma PositionPrefix(ratios: seq<real>, r: real, j: nat)
    requires j <= |ratios|
    ensures Position(ratios + [r], j) == Position(ratios, j)
  {
    if j > 0 { PositionPrefix(ratios, r, j - 1); }
  }

  /** Every output so far is the filter at its position of the whole stream. */
  ghost predicate Faithful(stream: seq<Sample>, ratios: seq<real>, emitted: seq<Sample>, filter: (seq<Sample>, real) -> Sample) {
    && |ratios| == |emitted|
    && (forall j :: 0 <= j < |ratios| ==> 0.999 <= ratios[j] <= 1.001)
    && (forall j :: 0 <= j < |emitted| ==> InBounds(stream, Position(ratios, j)) && emitted[j] == FilterAt(stream, Position(ratios, j), filter))
  }

  lemma FaithfulGrows(stream: seq<Sample>, more: seq<Sample>, ratios: seq<real>, emitted: seq<Sample>, filter: (seq<Sample>, real) -> Sample)
    requires Faithful(stream, ratios, emitted, filter)
    ensures Faithful(stream + more, ratios, emitted, filter)
  {
    hide FilterAt, InBounds, Position;
    forall j | 0 <= j < |emitted|
      ensures InBounds(stream + more, Position(ratios, j)) && emitted[j] == FilterAt(stream + more, Position(ratios, j), filter)
    {
      GrownFilter(stream, more, Position(ratios, j), filter);
    }
  }

  lemma FaithfulStep(stream: seq<Sample>, ratios: seq<real>, emitted: seq<Sample>, filter: (seq<Sample>, real) -> Sample, r: real)
    requires Faithful(stream, ratios, emitted, filter) && 0.999 <= r <= 1.001
    requires InBounds(stream, Position(ratios, |ratios|))
    ensures Faithful(stream, ratios + [r], emitted + [FilterAt(stream, Position(ratios, |ratios|), filter)], filter)
    ensures Position(ratios + [r], |ratios| + 1) == Position(ratios, |ratios|) + r
  {
    hide FilterAt, InBounds;
    forall j | 0 <= j <= |ratios| ensures Position(ratios + [r], j) == Position(ratios, j) {
      PositionPrefix(ratios, r, j);
    }
  }

  class DriftResampler {
    const filter: (seq<Sample>, real) -> Sample

    /** The ring this resampler reads; the capture side changes it between calls. */
    const ring: PcmRing.Ring

    var source: seq<Sample>
    var position: real
    var primed: bool

    /** Everything taken from the ring so far, preceded by copies of its first frame; how much
        of it has been forgotten; and the outputs with the ratios that spaced them. */
    ghost var stream: seq<Sample>
    ghost var dropped: nat
    ghost var popped: seq<Sample>
    ghost var ratios: seq<real>
    ghost var emitted: seq<Sample>

    ghost predicate Valid()
      reads this
    {
      && (!primed ==> source == [] && popped == [] && ratios == [] && emitted == [])
      && (primed ==>
            && popped != [] && stream == Repeat(popped[0], 16) + popped
            && dropped <= |stream| && source == stream[dropped..]
            && position + dropped as real == Position(ratios, |ratios|)
            && position >= 16.0 && position.Floor <= |source| + 1
            && Faithful(stream, ratios, emitted, filter))
    }

    /** The frames that wait in the ring. */
    ghost function Waiting(): seq<Sample>
      reads ring, ring.data
      requires ring.Valid()
    {
      Frames(ring.Contents(), ring.channels, ring.available)
    }

    constructor (ring: PcmRing.Ring, filter: (seq<Sample>, real) -> Sample)
      ensures Valid() && this.ring == ring && this.filter == filter && !primed && emitted == []
    {
      this.ring, this.filter := ring, filter;
      source, position, primed := [], 0.0, false;
      stream, dropped, popped, ratios, emitted := [], 0, [], [], [];
    }

    /** Forgetting is invisible: output `j` is the filter at position P(j) of the whole stream,
        sixteen copies of the first frame followed by everything popped, where P(0) is 16 and
        P(j+1) is P(j) plus the ratio of output j. */
    lemma WholeStream(j: nat)
      requires Valid() && j < |emitted|
      ensures popped != [] && InBounds(Repeat(popped[0], 16) + popped, Position(ratios, j))
      ensures emitted[j] == FilterAt(Repeat(popped[0], 16) + popped, Position(ratios, j), filter)
      ensures var frames, center := popped, (Position(ratios, j) - 8.0).Floor;
              && center >= 7 && center + 8 < 16 + |frames|
              && emitted[j] == filter(seq(16, t requires 0 <= t < 16 =>
                                        if center - 7 + t < 16 then frames[0] else frames[center - 7 + t - 16]),
                                      Position(ratios, j) - 8.0 - center as real)
      ensures Position(ratios, 0) == 16.0 && j + 1 <= |ratios| && Position(ratios, j + 1) == Position(ratios, j) + ratios[j]
    {
      hide Position;
      var p := Position(ratios, j);
      var center := (p - 8.0).Floor;
      var frames := popped;
      var whole := Repeat(frames[0], 16) + frames;
      assert whole[center - 7..center + 9] == seq(16, t requires 0 <= t < 16 =>
               if center - 7 + t < 16 then frames[0] else frames[center - 7 + t - 16]);
      FirstPosition();
    }

    lemma FirstPosition()
      ensures Position(ratios, 0) == 16.0
      ensures forall j :: 0 <= j < |ratios| ==> Position(ratios, j + 1) == Position(ratios, j) + ratios[j]
    {
    }

    method Reset()
      requires Valid()
      modifies `source, `position, `primed, `stream, `dropped, `popped, `ratios, `emitted
      ensures Valid() && !primed && emitted == [] && popped == []
    {
      source, position, primed := [], 0.0, false;
      stream, dropped, popped, ratios, emitted := [], 0, [], [], [];
    }

    /** Frames that have been taken from the ring but not been played. */
    function BufferedFrames(): nat
      reads `source, `position
    {
      if |source| > position.Floor then if position.Floor >= 0 then |source| - position.Floor else |source| else 0
    }

    /** Takes up to `wanted` frames, fewer only if the ring runs out. */
    method AppendFromRing(wanted: nat) returns (pulled: nat)
      requires ring.Valid()
      modifies ring`readFrame, ring`available, ring`popped, ring`publishedFrames, `source, `popped
      ensures ring.Valid() && pulled == if wanted < |old(Waiting())| then wanted else |old(Waiting())|
      ensures Waiting() == old(Waiting())[pulled..]
      ensures source == old(source) + old(Waiting())[..pulled] && popped == old(popped) + old(Waiting())[..pulled]
    {
      hide PcmRing.Ring.Valid, PcmRing.Ring.Contents, Frames;
      WaitingLength();
      if ring.available == 0 || wanted == 0 {
        assert Waiting() == [] + Waiting();
        return 0;
      }
      var transfer;
      ghost var flat := ring.Contents();
      ghost var n := ring.available;
      transfer, pulled := ring.Pop(if wanted < ring.available then wanted else ring.available);
      FramesCut(flat, ring.channels, n, pulled);
      source := source + Frames(transfer, ring.channels, pulled);
      popped := popped + Frames(transfer, ring.channels, pulled);
    }

    lemma WaitingLength()
      requires ring.Valid()
      ensures |Waiting()| == ring.available && |ring.Contents()| == ring.available * ring.channels && ring.channels > 0
    {
      hide PcmRing.Wrapped, PcmRing.Around;
      ring.Bounds();
      FramesLength(ring.Contents(), ring.channels, ring.available);
    }

    /** The first call repeats its first frame sixteen times in front of the stream. */
    method Prime(outputFrames: nat) returns (ready: bool)
      requires Valid() && ring.Valid() && !primed && outputFrames > 0
      modifies ring`readFrame, ring`available, ring`popped, ring`publishedFrames, `source, `popped, `stream, `dropped, `position, `primed
      ensures Valid() && ring.Valid() && ready == primed
      ensures !ready ==> Waiting() == old(Waiting()) == []
      ensures popped + Waiting() == old(popped) + old(Waiting())
      ensures ready ==> position == 16.0 && |source| == 16 + |popped|
      ensures |popped| == if outputFrames + 18 < |old(Waiting())| then outputFrames + 18 else |old(Waiting())|
    {
      hide Frames, Waiting, PcmRing.Wrapped, PcmRing.Ring.Valid, FilterAt, InBounds;
      var pulled := AppendFromRing(outputFrames + 18);
      if pulled == 0 { return false; }
      source := Repeat(source[0], 16) + source;
      position, primed := 16.0, true;
      stream, dropped := source, 0;
      return true;
    }

    /** Takes more of the ring into the source. */
    method Refill(required: nat)
      requires Valid() && ring.Valid() && primed
      modifies ring`readFrame, ring`available, ring`popped, ring`publishedFrames, `source, `popped, `stream
      ensures Valid() && ring.Valid() && (required <= |source| || Waiting() == [])
      ensures popped + Waiting() == old(popped) + old(Waiting())
      ensures |popped| - |old(popped)| == if required <= |old(source)| then 0
                                          else if required - |old(source)| < |old(Waiting())| then required - |old(source)|
                                          else |old(Waiting())|
    {
      hide FilterAt, InBounds, Position, Faithful, Frames, Waiting, PcmRing.Ring.Valid;
      if required > |source| {
        var pulled := AppendFromRing(required - |source|);
        FaithfulGrows(stream, old(Waiting())[..pulled], ratios, emitted, filter);
        assert (stream + old(Waiting())[..pulled])[dropped..] == stream[dropped..] + old(Waiting())[..pulled];
        assert Repeat(popped[0], 16) + popped == stream + old(Waiting())[..pulled];
        stream := stream + old(Waiting())[..pulled];
      }
    }

    /** One output frame, and the position moves on. */
    method Step(ratio: real) returns (frame: Sample)
      requires Valid() && primed && 0.999 <= ratio <= 1.001 && InBounds(source, position)
      modifies `position, `ratios, `emitted
      ensures Valid() && position == old(position) + ratio
      ensures emitted == old(emitted) + [frame] && ratios == old(ratios) + [ratio]
      ensures frame == FilterAt(stream, old(position) + dropped as real, filter)
    {
      hide FilterAt, InBounds, Position, Faithful;
      SuffixFilter(stream, dropped, source, position, filter);
      FaithfulStep(stream, ratios, emitted, filter, ratio);
      StepBounds(source, position, ratio, filter);
      var center := (position - 8.0).Floor;
      var fraction := position - 8.0 - center as real;
      frame := filter(source[center - 7..center + 9], fraction);
      position := position + ratio;
      ratios, emitted := ratios + [ratio], emitted + [frame];
    }

    /** Forgets what no later window can reach. */
    method CompactHistory()
      requires Valid() && primed
      modifies `source, `position, `dropped
      ensures Valid() && BufferedFrames() == old(BufferedFrames())
      ensures position.Floor == (if old(position).Floor < 16 then old(position).Floor else 16)
    {
      hide FilterAt, InBounds, Position, Faithful;
      var integerPosition := position.Floor;
      if integerPosition <= HISTORY { return; }
      var dropFrames := integerPosition - HISTORY;
      FloorShift(position, dropFrames);
      assert stream[dropped..][dropFrames..] == stream[dropped + dropFrames..];
      source, position := source[dropFrames..], position - dropFrames as real;
      dropped := dropped + dropFrames;
    }

    /** Renders the next frames: each is the filter over the whole stream at the next position.
        Fewer than asked for are returned only when the stream is used up. */
    method Render(outputFrames: nat, ratio: real) returns (output: seq<Sample>)
      requires Valid() && ring.Valid()
      modifies this, ring`readFrame, ring`available, ring`popped, ring`publishedFrames
      ensures Valid() && ring.Valid() && |output| <= outputFrames
      ensures emitted == old(emitted) + output
      ensures |ratios| == |old(ratios)| + |output| && ratios[..|old(ratios)|] == old(ratios)
      ensures forall i :: |old(ratios)| <= i < |ratios| ==> ratios[i] == if ratio < 0.999 then 0.999 else if ratio > 1.001 then 1.001 else ratio
      ensures popped + Waiting() == old(popped) + old(Waiting())
      ensures |output| < outputFrames ==> Waiting() == [] && (primed ==> Position(ratios, |ratios|).Floor >= 16 + |popped|)
      ensures outputFrames > 0 && primed ==> position.Floor == HISTORY
      ensures outputFrames > 0 && old(primed) ==>
                var r := if ratio < 0.999 then 0.999 else if ratio > 1.001 then 1.001 else ratio;
                var missing := Ahead(old(position), r, outputFrames - 1).Floor + 1 - |old(source)|;
                |popped| - |old(popped)| == if missing <= 0 then 0 else if missing < |old(Waiting())| then missing else |old(Waiting())|
      ensures outputFrames > 0 && !old(primed) ==>
                var r := if ratio < 0.999 then 0.999 else if ratio > 1.001 then 1.001 else ratio;
                var first := if outputFrames + 18 < |old(Waiting())| then outputFrames + 18 else |old(Waiting())|;
                var missing, left := Ahead(16.0, r, outputFrames - 1).Floor + 1 - 16 - first, |old(Waiting())| - first;
                first > 0 ==> |popped| == first + if missing <= 0 then 0 else if missing < left then missing else left
    {
      hide Valid, Position, Ahead, Waiting, PcmRing.Ring.Valid;
      output := [];
      Nothing();
      if outputFrames == 0 { return; }
      var r := if ratio < 0.999 then 0.999 else if ratio > 1.001 then 1.001 else ratio;
      if primed { output := RenderPrimed(outputFrames, r); } else { output := RenderFirst(outputFrames, r); }
      SameRatio(old(ratios), |output|, r);
    }

    /** The first frames, once the ring has any. */
    method RenderFirst(outputFrames: nat, r: real) returns (output: seq<Sample>)
      requires Valid() && ring.Valid() && !primed && outputFrames > 0 && 0.999 <= r <= 1.001
      modifies this, ring`readFrame, ring`available, ring`popped, ring`publishedFrames
      ensures Valid() && ring.Valid() && |output| <= outputFrames
      ensures emitted == old(emitted) + output && ratios == old(ratios) + seq(|output|, _ => r)
      ensures popped + Waiting() == old(popped) + old(Waiting())
      ensures |output| < outputFrames ==> Waiting() == [] && (primed ==> Position(ratios, |ratios|).Floor >= 16 + |popped|)
      ensures primed ==> position.Floor == HISTORY
      ensures var first := if outputFrames + 18 < |old(Waiting())| then outputFrames + 18 else |old(Waiting())|;
              var missing, left := Ahead(16.0, r, outputFrames - 1).Floor + 1 - 16 - first, |old(Waiting())| - first;
              first > 0 ==> |popped| == first + if missing <= 0 then 0 else if missing < left then missing else left
    {
      hide Valid, Position, Ahead, Waiting, PcmRing.Ring.Valid;
      NotStarted();
      var ready := Prime(outputFrames);
      Nothing();
      if !ready { return []; }
      assert |popped| + |Waiting()| == |old(popped)| + |old(Waiting())|;
      output := RenderPrimed(outputFrames, r);
    }

    lemma SameRatio(before: seq<real>, n: nat, r: real)
      requires ratios == before + seq(n, _ => r)
      ensures |ratios| == |before| + n && ratios[..|before|] == before
      ensures forall i :: |before| <= i < |ratios| ==> ratios[i] == r
    {
    }

    method RenderPrimed(outputFrames: nat, r: real) returns (output: seq<Sample>)
      requires Valid() && ring.Valid() && primed && outputFrames > 0 && 0.999 <= r <= 1.001
      modifies ring`readFrame, ring`available, ring`popped, ring`publishedFrames, `source, `popped, `stream, `position, `ratios, `emitted, `dropped
      ensures Valid() && ring.Valid() && |output| <= outputFrames
      ensures emitted == old(emitted) + output && ratios == old(ratios) + seq(|output|, _ => r)
      ensures popped + Waiting() == old(popped) + old(Waiting())
      ensures |output| < outputFrames ==> Waiting() == [] && Position(ratios, |ratios|).Floor >= 16 + |popped|
      ensures position.Floor == HISTORY
      ensures var missing := Ahead(old(position), r, outputFrames - 1).Floor + 1 - |old(source)|;
              |popped| - |old(popped)| == if missing <= 0 then 0 else if missing < |old(Waiting())| then missing else |old(Waiting())|
    {
      hide Valid, Ahead;
      ghost var first := position;
      var last := position + r * (outputFrames - 1) as real;
      LastIsLater(first, r, outputFrames);
      Refill(last.Floor + 1);
      output := Produce(outputFrames, r);
      if |output| < outputFrames {
        Enough(first, r, |output|, outputFrames);
        Exhausted();
      }
      AtLeastHistory();
      CompactHistory();
    }

    lemma AtLeastHistory()
      requires Valid() && primed
      ensures position.Floor >= HISTORY
    {
    }

    /** Outputs until the source is used up. */
    method Produce(outputFrames: nat, r: real) returns (output: seq<Sample>)
      requires Valid() && primed && 0.999 <= r <= 1.001
      modifies `position, `ratios, `emitted
      ensures Valid() && |output| <= outputFrames
      ensures emitted == old(emitted) + output && ratios == old(ratios) + seq(|output|, _ => r)
      ensures position == Ahead(old(position), r, |output|)
      ensures |output| < outputFrames ==> position.Floor >= |source|
    {
      hide Valid;
      output := [];
      assert ratios + [] == ratios && emitted + [] == emitted;
      while |output| < outputFrames
        invariant Valid() && |output| <= outputFrames
        invariant position == Ahead(old(position), r, |output|)
        invariant emitted == old(emitted) + output
        invariant ratios == old(ratios) + seq(|output|, _ => r)
      {
        FloorShift(position, 8);
        WellInside();
        var center := (position - 8.0).Floor;
        if center < HALF_TAPS - 1 || center + HALF_TAPS >= |source| { return; }
        var frame := Step(r);
        output := output + [frame];
      }
    }

    lemma WellInside()
      requires Valid() && primed
      ensures position >= 16.0
    {
    }

    /** If the source reaches the last requested position, every output can be produced. */
    lemma Enough(first: real, r: real, produced: nat, outputFrames: nat)
      requires 0.999 <= r <= 1.001 && produced < outputFrames
      ensures Ahead(first, r, produced).Floor <= Ahead(first, r, outputFrames - 1).Floor
    {
      assert r * produced as real <= r * (outputFrames - 1) as real;
    }

    lemma LastIsLater(first: real, r: real, outputFrames: nat)
      requires Valid() && primed && 0.999 <= r && outputFrames > 0
      ensures first + r * (outputFrames - 1) as real == Ahead(first, r, outputFrames - 1)
      ensures first == position ==> Ahead(first, r, outputFrames - 1).Floor >= 0
    {
      assert r * (outputFrames - 1) as real >= 0.0;
    }

    /** The end of the source is the end of the stream. */
    lemma Exhausted()
      requires Valid() && primed && position.Floor >= |source|
      ensures Position(ratios, |ratios|).Floor >= 16 + |popped|
    {
      FloorShift(Position(ratios, |ratios|), dropped);
    }

    lemma NotStarted()
      requires Valid() && !primed
      ensures popped == []
    {
    }

    lemma Nothing()
      ensures ratios[..|ratios|] == ratios && emitted + [] == emitted
    {
    }
  }
}
