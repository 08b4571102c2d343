/**
  The mapping from capture times to recording times. Pausing starts a new epoch: input of the
  pause is dropped and the next epoch continues where the recording stopped, for both streams.
  Times are 100 ns ticks.
*/
module PauseTimeline {
  import opened SampleClock

  datatype Packet = Packet(video: bool, generation: nat, time: int, duration: int)
  datatype Mapped = Mapped(time: int, duration: int, skip: nat, keep: bool)
  datatype Cut = Cut(generation: nat, offset: int, cutSource: int, videoEnd: int, audioEnd: int)

  const DROPPED := Mapped(0, 0, 0, false)
  const START := Cut(0, -1, -1, 0, 0)

  /** 24.85 hours: the longest trim whose sample count fits the 32-bit result. */
  const MAX_TRIM: int := 894784853125

  function Max(a: int, b: int): int {
    if a < b then b else a
  }

  /** Samples at 48 kHz that cover `gap` ticks. */
  function SamplesIn(gap: nat): nat {
    (gap * 48000 + 9999999) / 10000000
  }

  function Enter(c: Cut, p: Packet): Cut {
    var resumed := if p.generation != c.generation
                   then Cut(p.generation, p.time - Max(c.videoEnd, c.audioEnd), p.time, c.videoEnd, c.audioEnd)
                   else c;
    if resumed.cutSource < 0 then resumed.(offset := p.time, cutSource := p.time) else resumed
  }

  /** Where audio of the current epoch may begin, in capture time. */
  function FirstAudio(c: Cut): int {
    Max(c.cutSource, c.audioEnd + c.offset)
  }

  function Skip(c: Cut, p: Packet): nat {
    if !p.video && p.time < FirstAudio(c) then SamplesIn(FirstAudio(c) - p.time) % 0x1_0000_0000 else 0
  }

  function Refused(c: Cut, p: Packet): bool {
    p.duration <= 0 || p.time < 0 || p.generation % 2 == 1 || p.generation < c.generation
    || (p.generation != c.generation && !p.video)
  }

  function Place(c: Cut, p: Packet): (Cut, Mapped) {
    var removed := Ticks(Skip(c, p));
    var time, duration := p.time + removed, p.duration - removed;
    if time < c.offset || duration <= 0 then (c, DROPPED)
    else
      var out := time - c.offset;
      ((if p.video then c.(videoEnd := Max(c.videoEnd, out + duration)) else c.(audioEnd := Max(c.audioEnd, out + duration))),
       Mapped(out, duration, Skip(c, p), true))
  }

  /** One packet: the next state and what becomes of the packet. */
  function MapStep(c: Cut, p: Packet): (Cut, Mapped) {
    if Refused(c, p) then (c, DROPPED) else Place(Enter(c, p), p)
  }

  /** `k` samples last at least `gap` ticks, and no fewer do. */
  ghost predicate Reaches(k: nat, gap: int) {
    k * 10000000 / 48000 >= gap && forall j: nat :: j * 10000000 / 48000 >= gap ==> j >= k
  }

  lemma FewestSamples(gap: nat)
    ensures Reaches(SamplesIn(gap), gap)
  {
  }

  /** One packet, in terms of its own fields and those of the state before and after. */
  lemma MapsTo(c: Cut, p: Packet)
    ensures var (d, m) := MapStep(c, p);
            var refused := p.duration <= 0 || p.time < 0 || p.generation % 2 == 1 || p.generation < c.generation
                           || (p.generation > c.generation && !p.video);
            var ends := if c.videoEnd > c.audioEnd then c.videoEnd else c.audioEnd;
            if refused then d == c && m == Mapped(0, 0, 0, false)
            else
              && d.generation == p.generation
              && (p.generation > c.generation ==> d.cutSource == p.time && d.offset == p.time - ends)
              && (p.generation == c.generation ==> if c.cutSource < 0 then d.cutSource == d.offset == p.time
                                                   else d.cutSource == c.cutSource && d.offset == c.offset)
    ensures var (d, m) := MapStep(c, p);
            && (m.keep && p.video ==> m == Mapped(p.time - d.offset, p.duration, 0, true))
            && (m.keep && !p.video ==>
                  m == Mapped(p.time + m.skip * 10000000 / 48000 - d.offset, p.duration - m.skip * 10000000 / 48000, m.skip, true))
            && (!m.keep ==> m == Mapped(0, 0, 0, false))
            && d.videoEnd == (if m.keep && p.video && m.time + m.duration > c.videoEnd then m.time + m.duration else c.videoEnd)
            && d.audioEnd == (if m.keep && !p.video && m.time + m.duration > c.audioEnd then m.time + m.duration else c.audioEnd)
    ensures var (d, m) := MapStep(c, p);
            m.keep ==> p.duration > 0 && p.time >= 0 && p.generation % 2 == 0 && d.generation == p.generation
    ensures var (d, m) := MapStep(c, p);
            p.duration > 0 && p.time >= 0 && p.generation % 2 == 0 && p.generation >= c.generation && p.video ==>
              (m.keep <==> p.time >= d.offset)
  {
    hide SamplesIn;
  }

  /** Audio of the current epoch is kept if it is longer than its trim. */
  lemma AudioFits(c: Cut, p: Packet)
    requires p.duration > 0 && p.time >= 0 && p.generation % 2 == 0 && p.generation == c.generation && !p.video
    ensures var (d, m) := MapStep(c, p);
            var first := if d.cutSource > c.audioEnd + d.offset then d.cutSource else c.audioEnd + d.offset;
            && (p.time >= first ==> (m.keep <==> p.time >= d.offset) && (m.keep ==> m.skip == 0))
            && (0 < first - p.time <= MAX_TRIM ==>
                  exists k: nat :: && Reaches(k, first - p.time)
                                   && (m.keep <==> p.duration > k * 10000000 / 48000 && p.time + k * 10000000 / 48000 >= d.offset)
                                   && (m.keep ==> m.skip == k))
  {
    hide Reaches;
    var e := Enter(c, p);
    var gap := FirstAudio(e) - p.time;
    if 0 < gap <= MAX_TRIM {
      FewestSamples(gap);
      TrimCovers(gap);
      assert Skip(e, p) == SamplesIn(gap);
    }
  }

  class RecordingPauseTimeline {
    var generation: nat
    var offset: int
    var cutSource: int
    var videoEnd: int
    var audioEnd: int

    function State(): Cut
      reads this
    {
      Cut(generation, offset, cutSource, videoEnd, audioEnd)
    }

    constructor ()
      ensures State() == START
    {
      generation, offset, cutSource, videoEnd, audioEnd := 0, -1, -1, 0, 0;
    }

    /** Audio of a later epoch has to wait for the video packet that opens the epoch. */
    method NeedsVideo(g: nat) returns (r: bool)
      ensures r <==> g > generation
      ensures r ==> forall p: Packet :: p.generation == g && !p.video ==> MapStep(State(), p) == (State(), DROPPED)
      ensures g % 2 == 0 ==> forall v: Packet :: v.generation == g && v.video && v.time >= 0 && v.duration > 0 ==>
                MapStep(State(), v).0.generation == if r then g else generation
    {
      r := g > generation;
    }

    /** Which packets are dropped, where an epoch begins, what is kept of a packet and where it
        goes: a picture is kept from the start of its epoch on, and audio if it is longer than
        the fewest samples that reach the cut and the end of earlier audio. */
    method Map(video: bool, g: nat, start: int, length: int) returns (m: Mapped)
      modifies this
      ensures (State(), m) == MapStep(old(State()), Packet(video, g, start, length))
      ensures var refused := length <= 0 || start < 0 || g % 2 == 1 || g < old(generation) || (g > old(generation) && !video);
              var ends := if old(videoEnd) > old(audioEnd) then old(videoEnd) else old(audioEnd);
              if refused then State() == old(State()) && m == Mapped(0, 0, 0, false)
              else
                && generation == g
                && (g > old(generation) ==> cutSource == start && offset == start - ends)
                && (g == old(generation) ==> if old(cutSource) < 0 then cutSource == offset == start
                                             else cutSource == old(cutSource) && offset == old(offset))
      ensures m.keep && video ==> m == Mapped(start - offset, length, 0, true)
      ensures m.keep && !video ==>
                m == Mapped(start + m.skip * 10000000 / 48000 - offset, length - m.skip * 10000000 / 48000, m.skip, true)
      ensures !m.keep ==> m == Mapped(0, 0, 0, false)
      ensures videoEnd == (if m.keep && video && m.time + m.duration > old(videoEnd) then m.time + m.duration else old(videoEnd))
      ensures audioEnd == (if m.keep && !video && m.time + m.duration > old(audioEnd) then m.time + m.duration else old(audioEnd))
      ensures m.keep ==> length > 0 && start >= 0 && g % 2 == 0 && generation == g
      ensures length > 0 && start >= 0 && g % 2 == 0 && g >= old(generation) && video ==> (m.keep <==> start >= offset)
      ensures length > 0 && start >= 0 && g % 2 == 0 && g == old(generation) && !video ==>
                var first := if cutSource > old(audioEnd) + offset then cutSource else old(audioEnd) + offset;
                && (start >= first ==> (m.keep <==> start >= offset) && (m.keep ==> m.skip == 0))
                && (0 < first - start <= MAX_TRIM ==>
                      exists k: nat :: && Reaches(k, first - start)
                                       && (m.keep <==> length > k * 10000000 / 48000 && start + k * 10000000 / 48000 >= offset)
                                       && (m.keep ==> m.skip == k))
    {
      hide MapStep, Reaches;
      MapsTo(State(), Packet(video, g, start, length));
      if length > 0 && start >= 0 && g % 2 == 0 && g == generation && !video { AudioFits(State(), Packet(video, g, start, length)); }
      m := Step(video, g, start, length);
    }

    method Step(video: bool, g: nat, start: int, length: int) returns (m: Mapped)
      modifies this
      ensures (State(), m) == MapStep(old(State()), Packet(video, g, start, length))
    {
      hide Max;
      var time, duration := start, length;
      if duration <= 0 || time < 0 || g % 2 == 1 || g < generation { return DROPPED; }
      if g != generation {
        if !video { return DROPPED; }
        generation, cutSource := g, time;
        offset := time - Max(videoEnd, audioEnd);
      }
      if cutSource < 0 { offset, cutSource := time, time; }
      var skip: nat := 0;
      if !video {
        var first := Max(cutSource, audioEnd + offset);
        if time < first {
          skip := ((first - time) * 48000 + 9999999) / 10000000 % 0x1_0000_0000;
          var removed := skip * 10000000 / 48000;
          time, duration := time + removed, duration - removed;
        }
      }
      if time < offset || duration <= 0 { return DROPPED; }
      var out := time - offset;
      if video { videoEnd := Max(videoEnd, out + duration); } else { audioEnd := Max(audioEnd, out + duration); }
      return Mapped(out, duration, skip, true);
    }
  }

  // ---- one packet ----

  /** A trim reaches the cut and overshoots it by less than one sample. */
  lemma TrimCovers(gap: nat)
    ensures Ticks(SamplesIn(gap)) >= gap
    ensures (Ticks(SamplesIn(gap)) - gap) * 48000 < 10000000
    ensures SamplesIn(gap) < 0x1_0000_0000 <==> gap <= MAX_TRIM
  {
  }

  /** Kept audio starts at or after the cut and after all earlier audio exactly when the trim
      fits the 32-bit sample count; then it overshoots by less than one sample. */
  lemma AudioStart(c: Cut, p: Packet)
    requires !p.video && Place(c, p).1.keep
    ensures var m := Place(c, p).1;
            var gap := FirstAudio(c) - p.time;
            && (m.time >= c.audioEnd && m.time + c.offset >= c.cutSource <==> gap <= MAX_TRIM)
            && (0 < gap <= MAX_TRIM ==> (m.time + c.offset - FirstAudio(c)) * 48000 < 10000000)
  {
    var gap := FirstAudio(c) - p.time;
    if gap > 0 { TrimCovers(gap); }
  }

  /** What is kept has samples left: the trim is shorter than the packet. */
  lemma TrimLeavesSamples(c: Cut, p: Packet, frames: nat)
    requires !p.video && p.duration == Ticks(frames) && Place(c, p).1.keep
    ensures Place(c, p).1.skip < frames
    ensures Place(c, p).1.duration > 0
  {
  }

  /** Beyond that limit the claim is false: a run of 100 ms audio packets and single pictures
      whose last packet, audio that arrives 24.85 hours late for a resumed epoch, is kept whole
      on top of audio that has already been written. */
  lemma TrimWraps()
    ensures var run := LateAudio(); var audio := Ticks(4800);
            && VideoIncreases(run) && run[1].duration == run[4].duration == audio
            && Output(run, 1) == Mapped(0, audio, 0, true)
            && Output(run, 4) == Mapped(166666, audio, 0, true)
            && Output(run, 4).time < End(Output(run, 1))
  {
    hide MapStep, Ticks, VideoIncreases;
    var run := LateAudio();
    var cs := LateStates();
    LateSteps();
    assert StateAfter(run, 1) == cs[0];
    assert StateAfter(run, 2) == cs[1];
    assert StateAfter(run, 3) == cs[2];
  }

  /** The state after each packet of that run, in order. */
  function LateStates(): (cs: seq<Cut>)
    ensures |cs| == 4
  {
    var g := MAX_TRIM + 1;
    [Cut(0, 0, 0, 166666, 0), Cut(0, 0, 0, 166666, 1000000), Cut(0, 0, 0, g + 166666, 1000000),
     Cut(2, 0, g + 166666, g + 333332, 1000000)]
  }

  /** The steps of that run. */
  lemma LateSteps()
    ensures var run, cs, audio := LateAudio(), LateStates(), Ticks(4800);
            && audio == run[1].duration == run[4].duration == 1000000 && VideoIncreases(run)
            && MapStep(START, run[0]).0 == cs[0] && MapStep(cs[0], run[1]) == (cs[1], Mapped(0, audio, 0, true))
            && MapStep(cs[1], run[2]).0 == cs[2] && MapStep(cs[2], run[3]).0 == cs[3]
            && MapStep(cs[3], run[4]).1 == Mapped(166666, audio, 0, true)
  {
    hide MapStep, VideoIncreases;
    var run, cs := LateAudio(), LateStates();
    LateIncreases();
    PictureStep(START, run[0]);
    SoundStep(cs[0], run[1]);
    PictureStep(cs[1], run[2]);
    PictureStep(cs[2], run[3]);
    FullRound();
    SoundStep(cs[3], run[4]);
  }

  lemma LateIncreases()
    ensures VideoIncreases(LateAudio())
  {
  }

  /** The first trim that does not fit leaves no remainder. */
  lemma FullRound()
    ensures SamplesIn(MAX_TRIM + 1) == 0x1_0000_0000
  {
  }

  lemma PictureStep(c: Cut, p: Packet)
    requires p.video && !Refused(c, p) && p.time >= Enter(c, p).offset
    ensures MapStep(c, p).0 == var e := Enter(c, p); e.(videoEnd := Max(e.videoEnd, p.time - e.offset + p.duration))
  {
  }

  lemma SoundStep(c: Cut, p: Packet)
    requires !p.video && !Refused(c, p) && Skip(Enter(c, p), p) == 0 && p.time >= Enter(c, p).offset
    ensures var e := Enter(c, p); var out := p.time - e.offset;
            MapStep(c, p) == (e.(audioEnd := Max(e.audioEnd, out + p.duration)), Mapped(out, p.duration, 0, true))
  {
  }

  function LateAudio(): (run: seq<Packet>)
    ensures |run| == 5
  {
    var g := MAX_TRIM + 1;
    [Packet(true, 0, 0, 166666), Packet(false, 0, 0, 1000000), Packet(true, 0, g, 166666),
     Packet(true, 2, g + 166666, 166666), Packet(false, 2, 166666, 1000000)]
  }

  // ---- whole runs ----

  function StateAfter(ps: seq<Packet>, n: nat): Cut
    requires n <= |ps|
  {
    if n == 0 then START else MapStep(StateAfter(ps, n - 1), ps[n - 1]).0
  }

  function Output(ps: seq<Packet>, n: nat): Mapped
    requires n < |ps|
  {
    MapStep(StateAfter(ps, n), ps[n]).1
  }

  function End(m: Mapped): int {
    m.time + m.duration
  }

  /** Capture time of the first sample that is kept. */
  function Source(p: Packet, m: Mapped): int {
    p.time + Ticks(m.skip)
  }

  /** Within an epoch, video is delivered with increasing capture times. */
  ghost predicate VideoIncreases(ps: seq<Packet>) {
    forall i, j :: 0 <= i < j < |ps| && ps[i].video && ps[j].video && ps[i].generation == ps[j].generation ==> ps[i].time < ps[j].time
  }

  /** Kept audio is never trimmed by more than a day; otherwise the sample count wraps. */
  ghost predicate TrimsFit(ps: seq<Packet>) {
    forall n :: 0 <= n < |ps| && !ps[n].video && Output(ps, n).keep ==>
      FirstAudio(Enter(StateAfter(ps, n), ps[n])) - ps[n].time <= MAX_TRIM
  }

  /** The state between packets. */
  ghost predicate Steady(c: Cut) {
    && 0 <= c.videoEnd && 0 <= c.audioEnd
    && (if c.cutSource < 0 then c == START else c.offset <= c.cutSource)
    && (c.generation == 0 ==> c.offset == c.cutSource)
  }

  /** Recording time at which the current epoch began. */
  function Base(c: Cut): int {
    c.cutSource - c.offset
  }

  /** What the state still knows about a packet kept earlier. */
  ghost predicate Remembered(c: Cut, p: Packet, m: Mapped) {
    && 0 <= m.time && 0 < m.duration && c.cutSource >= 0 && p.generation <= c.generation
    && End(m) <= (if p.video then c.videoEnd else c.audioEnd)
    && (p.generation == c.generation ==> m.time == Source(p, m) - c.offset && m.time >= Base(c))
    && (p.generation < c.generation ==> End(m) <= Base(c))
  }

  /** One packet: the state stays steady, and what was remembered still is. */
  lemma StepSteady(c: Cut, p: Packet)
    requires Steady(c)
    ensures Steady(MapStep(c, p).0)
    ensures MapStep(c, p).0.generation >= c.generation
    ensures MapStep(c, p).0.generation > c.generation ==> p.video && p.generation == MapStep(c, p).0.generation && p.time == MapStep(c, p).0.cutSource
    ensures MapStep(c, p).0.generation == c.generation && c.cutSource >= 0 ==>
              MapStep(c, p).0.offset == c.offset && MapStep(c, p).0.cutSource == c.cutSource
  {
  }

  lemma StepRemembers(c: Cut, p: Packet, q: Packet, m: Mapped)
    requires Steady(c) && Remembered(c, q, m)
    ensures Remembered(MapStep(c, p).0, q, m)
  {
  }

  /** The anchor: in a resumed epoch, a video packet of that epoch sits at the cut. */
  ghost predicate Anchored(c: Cut, ps: seq<Packet>, n: nat)
    requires n <= |ps|
  {
    c.generation > 0 ==> exists a :: 0 <= a < n && ps[a].video && ps[a].generation == c.generation && ps[a].time == c.cutSource
  }

  /** A kept packet starts after everything of earlier epochs, and audio after earlier audio. */
  lemma StepKeeps(c: Cut, p: Packet)
    requires Steady(c) && MapStep(c, p).1.keep
    requires !p.video ==> FirstAudio(Enter(c, p)) - p.time <= MAX_TRIM
    requires p.video && p.generation == c.generation && c.generation > 0 ==> p.time >= c.cutSource
    ensures Remembered(MapStep(c, p).0, p, MapStep(c, p).1)
    ensures !p.video ==> MapStep(c, p).1.time >= c.audioEnd
    ensures p.generation > c.generation ==> MapStep(c, p).1.time >= Max(c.videoEnd, c.audioEnd)
    ensures p.generation == c.generation && c.cutSource >= 0 ==> MapStep(c, p).1.time == Source(p, MapStep(c, p).1) - c.offset >= Base(c)
  {
    if !p.video { AudioStart(Enter(c, p), p); }
  }

  lemma {:induction false} RunSteady(ps: seq<Packet>, n: nat)
    requires VideoIncreases(ps) && TrimsFit(ps) && n <= |ps|
    ensures Steady(StateAfter(ps, n)) && Anchored(StateAfter(ps, n), ps, n)
    ensures n < |ps| && Output(ps, n).keep && ps[n].video && ps[n].generation == StateAfter(ps, n).generation > 0 ==>
              ps[n].time >= StateAfter(ps, n).cutSource
  {
    if n > 0 {
      RunSteady(ps, n - 1);
      StepSteady(StateAfter(ps, n - 1), ps[n - 1]);
    }
  }

  lemma RunKeeps(ps: seq<Packet>, i: nat)
    requires VideoIncreases(ps) && TrimsFit(ps) && i < |ps| && Output(ps, i).keep
    ensures Remembered(StateAfter(ps, i + 1), ps[i], Output(ps, i))
  {
    hide MapStep, Remembered, VideoIncreases;
    RunSteady(ps, i);
    StepKeeps(StateAfter(ps, i), ps[i]);
  }

  /** Every packet kept so far is remembered by the state. */
  lemma {:induction false} RunRemembers(ps: seq<Packet>, i: nat, n: nat)
    requires VideoIncreases(ps) && TrimsFit(ps) && i < n <= |ps| && Output(ps, i).keep
    ensures Remembered(StateAfter(ps, n), ps[i], Output(ps, i))
    decreases n
  {
    hide MapStep, Remembered, VideoIncreases, TrimsFit;
    if i == n - 1 {
      RunKeeps(ps, i);
    } else {
      RunSteady(ps, n - 1);
      RunRemembers(ps, i, n - 1);
      StepRemembers(StateAfter(ps, n - 1), ps[n - 1], ps[i], Output(ps, i));
    }
  }

  /** Over a whole run: recording times are never negative, audio never overlaps, video times
      strictly increase, a resumed epoch begins after everything before it, and all packets of
      one epoch are shifted by the same amount. */
  lemma PauseMapping(ps: seq<Packet>, i: nat, j: nat)
    requires VideoIncreases(ps) && TrimsFit(ps) && i < j < |ps| && Output(ps, i).keep && Output(ps, j).keep
    ensures 0 <= Output(ps, i).time
    ensures !ps[i].video && !ps[j].video ==> End(Output(ps, i)) <= Output(ps, j).time
    ensures ps[i].video && ps[j].video ==> Output(ps, i).time < Output(ps, j).time
    ensures ps[i].generation <= ps[j].generation
    ensures ps[i].generation < ps[j].generation ==> End(Output(ps, i)) <= Output(ps, j).time
    ensures ps[i].generation == ps[j].generation ==>
              Source(ps[i], Output(ps, i)) - Output(ps, i).time == Source(ps[j], Output(ps, j)) - Output(ps, j).time
  {
    RunRemembers(ps, i, j);
    RunSteady(ps, j);
    StepKeeps(StateAfter(ps, j), ps[j]);
  }

  /** What a run keeps of a valid packet that is not too late: a picture unless it lies before its
      epoch, the first picture of a resumed epoch always, and audio exactly if it is longer than
      the fewest samples that reach the cut and the end of the audio before it. */
  lemma KeptExactly(ps: seq<Packet>, n: nat)
    requires VideoIncreases(ps) && TrimsFit(ps) && n < |ps|
    requires var p := ps[n]; p.duration > 0 && p.time >= 0 && p.generation % 2 == 0
    ensures var c, d, p, m := StateAfter(ps, n), StateAfter(ps, n + 1), ps[n], Output(ps, n);
            && (p.video && p.generation > c.generation ==>
                  m == Mapped(if c.videoEnd > c.audioEnd then c.videoEnd else c.audioEnd, p.duration, 0, true))
            && (p.video && p.generation == c.generation ==> (m.keep <==> p.time >= d.offset))
            && (!p.video && p.generation == c.generation ==>
                  var gap := (if d.cutSource > c.audioEnd + d.offset then d.cutSource else c.audioEnd + d.offset) - p.time;
                  && (gap <= 0 ==> m.keep && m.skip == 0)
                  && (0 < gap <= MAX_TRIM ==>
                        exists k: nat :: && Reaches(k, gap) && (m.keep <==> p.duration > k * 10000000 / 48000) && (m.keep ==> m.skip == k)))
  {
    hide MapStep, Reaches, TrimsFit, VideoIncreases;
    var c, p := StateAfter(ps, n), ps[n];
    RunSteady(ps, n);
    MapsTo(c, p);
    StepSteady(c, p);
    if !p.video && p.generation == c.generation {
      AudioFits(c, p);
      var d, m := StateAfter(ps, n + 1), Output(ps, n);
      var gap := (if d.cutSource > c.audioEnd + d.offset then d.cutSource else c.audioEnd + d.offset) - p.time;
      if 0 < gap <= MAX_TRIM {
        var k: nat :| && Reaches(k, gap) && (m.keep ==> m.skip == k)
                      && (m.keep <==> p.duration > k * 10000000 / 48000 && p.time + k * 10000000 / 48000 >= d.offset);
        ReachesGap(k, gap);
        assert m.keep <==> p.duration > k * 10000000 / 48000;
      }
    }
  }

  lemma ReachesGap(k: nat, gap: int)
    requires Reaches(k, gap)
    ensures k * 10000000 / 48000 >= gap
  {
  }

  /** The recorder's own checks on what it keeps never fire: per stream the times strictly
      increase from at least zero, and no trim swallows a whole packet. */
  lemma ChecksNeverFire(ps: seq<Packet>, j: nat, frames: nat)
    requires VideoIncreases(ps) && TrimsFit(ps) && j < |ps| && Output(ps, j).keep
    requires !ps[j].video ==> ps[j].duration == Ticks(frames)
    ensures Output(ps, j).time >= 0
    ensures forall i :: 0 <= i < j && Output(ps, i).keep && ps[i].video == ps[j].video ==> Output(ps, i).time < Output(ps, j).time
    ensures !ps[j].video ==> Output(ps, j).skip < frames
  {
    RunRemembers(ps, j, j + 1);
    if !ps[j].video { TrimLeavesSamples(Enter(StateAfter(ps, j), ps[j]), ps[j], frames); }
    hide Output, VideoIncreases, TrimsFit;
    forall i | 0 <= i < j && Output(ps, i).keep && ps[i].video == ps[j].video ensures Output(ps, i).time < Output(ps, j).time {
      PauseMapping(ps, i, j);
      RunRemembers(ps, i, j);
    }
  }

  // ---- when trims fit, from the input alone ----

  /** No capture time before `n` starts or ends after `bound`. */
  ghost predicate Until(ps: seq<Packet>, n: nat, bound: int)
    requires n <= |ps|
  {
    bound >= 0 && forall i :: 0 <= i < n ==> ps[i].time <= bound && ps[i].time + ps[i].duration <= bound
  }

  /** Audio is never delivered more than 24.85 hours later than anything captured before it. */
  ghost predicate AudioInTime(ps: seq<Packet>) {
    forall n :: 0 <= n < |ps| && !ps[n].video && ps[n].time >= 0 ==> Until(ps, n, ps[n].time + MAX_TRIM)
  }

  /** Audio of an epoch begins no later than something captured earlier started or ended. */
  lemma {:induction false} FirstAudioIsInput(ps: seq<Packet>, n: nat, bound: int)
    requires n <= |ps| && Until(ps, n, bound)
    ensures var c := StateAfter(ps, n); c == START || (c.cutSource >= 0 && FirstAudio(c) <= bound)
    ensures StateAfter(ps, n).audioEnd >= 0 && StateAfter(ps, n).videoEnd >= 0
  {
    if n > 0 { FirstAudioIsInput(ps, n - 1, bound); }
  }

  /** So every trim of such a recording fits. */
  lemma InTimeFits(ps: seq<Packet>)
    requires AudioInTime(ps)
    ensures TrimsFit(ps)
  {
    forall n | 0 <= n < |ps| && !ps[n].video && Output(ps, n).keep
      ensures FirstAudio(Enter(StateAfter(ps, n), ps[n])) - ps[n].time <= MAX_TRIM
    {
      FirstAudioIsInput(ps, n, ps[n].time + MAX_TRIM);
    }
  }

  /** Over a run, kept audio starts after its cut and after earlier audio if and only if all
      trims fit. */
  lemma TrimsFitExactly(ps: seq<Packet>)
    ensures TrimsFit(ps) <==>
            forall n :: 0 <= n < |ps| && !ps[n].video && Output(ps, n).keep ==>
              var c := Enter(StateAfter(ps, n), ps[n]);
              Output(ps, n).time >= c.audioEnd && Output(ps, n).time + c.offset >= c.cutSource
  {
    forall n | 0 <= n < |ps| && !ps[n].video && Output(ps, n).keep
      ensures var c := Enter(StateAfter(ps, n), ps[n]);
              Output(ps, n).time >= c.audioEnd && Output(ps, n).time + c.offset >= c.cutSource <==> FirstAudio(c) - ps[n].time <= MAX_TRIM
    {
      AudioStart(Enter(StateAfter(ps, n), ps[n]), ps[n]);
    }
  }
}
