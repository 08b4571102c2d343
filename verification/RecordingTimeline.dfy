/**
  The adaptation of recording times to fragmented MP4: both streams are made to start at zero,
  and one video sample is held back until the next one tells its true duration.
  The sink writer is a log per stream; a write may fail.
*/
module RecordingTimeline {
  import opened SampleClock
  import opened Wrappers
  import PauseTimeline

  const MAX_PREFIX: int := 5 * 10000000

  datatype Payload = Frame(id: nat) | Silence(bytes: nat)
  datatype Sample = Sample(time: int, duration: int, payload: Payload)
  datatype Status = Ok | InvalidTimestamp | WriteFailed

  // ---- what the logs should be ----

  /** Every sample lasts until the next one; the last keeps its own duration. */
  ghost function Stretched(s: seq<Sample>): (r: seq<Sample>)
    ensures |r| == |s|
  {
    seq(|s|, i requires 0 <= i < |s| => if i + 1 < |s| then s[i].(duration := s[i + 1].time - s[i].time) else s[i])
  }

  ghost function Lead(s: seq<Sample>): seq<Sample> {
    if s != [] && s[0].time > 0 then [Sample(0, s[0].time, s[0].payload)] else []
  }

  /** All video writes for a list of accepted samples. */
  ghost function VideoWrites(s: seq<Sample>): seq<Sample> {
    Lead(s) + Stretched(s)
  }

  function Frames(offset: nat): nat {
    (offset * 48000 + 5000000) / 10000000
  }

  /** Silence in chunks of 100 ms and a shorter last one. */
  ghost function Chunks(frames: nat): seq<Sample>
    decreases frames
  {
    if frames == 0 then []
    else
      var first := (frames - 1) / 4800 * 4800;
      Chunks(first) + [Sample(Ticks(first), Ticks(frames) - Ticks(first), Silence((frames - first) * 4))]
  }

  ghost function AudioWrites(s: seq<Sample>): seq<Sample> {
    if s == [] then [] else (if s[0].time >= 0 then Chunks(Frames(s[0].time)) else []) + s
  }

  class Timeline {
    const fragmented: bool
    var firstVideo: bool
    var firstAudio: bool
    var pending: Option<Sample>
    var pendingTime: int
    var videoLog: seq<Sample>
    var audioLog: seq<Sample>

    ghost var clean: bool
    ghost var refused: bool
    ghost var finished: bool
    ghost var videoIn: seq<Sample>
    ghost var audioIn: seq<Sample>

    /** Without write failures the logs are determined by the accepted samples. */
    ghost predicate Valid()
      reads this
    {
      && (firstVideo <==> videoIn == [] || !fragmented)
      && (pending.Some? ==> fragmented && pendingTime == pending.value.time
                            && videoIn != [] && pending.value == videoIn[|videoIn| - 1])
      && (clean ==>
            && (!fragmented ==> pending.None? && videoLog == videoIn && audioLog == audioIn)
            && (fragmented ==> audioLog == AudioWrites(audioIn))
            && (fragmented && !finished ==>
                  && (pending.Some? <==> videoIn != [])
                  && (if pending.Some? then videoLog + [pending.value] else videoLog) == VideoWrites(videoIn))
            && (fragmented && finished ==> pending.None? && videoLog == VideoWrites(videoIn)))
      && (fragmented ==> (firstAudio <==> audioIn == []))
    }

    constructor (fragmented: bool)
      ensures Valid() && clean && !refused && !finished && videoIn == [] && audioIn == [] && this.fragmented == fragmented
    {
      this.fragmented := fragmented;
      firstVideo, firstAudio, pending, pendingTime := true, true, None, 0;
      videoLog, audioLog := [], [];
      clean, refused, finished, videoIn, audioIn := true, false, false, [], [];
      new;
      assert VideoWrites([]) == [];
    }

    method WriteSample(video: bool, s: Sample) returns (hr: Status)
      modifies `videoLog, `audioLog, `clean, `refused
      ensures hr == Ok || hr == WriteFailed
      ensures clean == (old(clean) && hr == Ok) && (hr == WriteFailed ==> refused) && (old(refused) ==> refused)
      ensures hr == Ok ==> videoLog == old(videoLog) + (if video then [s] else [])
      ensures hr == Ok ==> audioLog == old(audioLog) + (if video then [] else [s])
      ensures hr != Ok ==> videoLog == old(videoLog) && audioLog == old(audioLog)
    {
      var success := *;
      if !success { clean, refused := false, true; return WriteFailed; }
      if video { videoLog := videoLog + [s]; } else { audioLog := audioLog + [s]; }
      return Ok;
    }

    /** Hands the held sample over; it is consumed even if the write fails. */
    method Finish() returns (hr: Status)
      requires Valid()
      modifies `pending, `videoLog, `audioLog, `clean, `refused, `finished
      ensures Valid() && finished && pending.None? && audioLog == old(audioLog) && hr != InvalidTimestamp
      ensures clean == (old(clean) && hr == Ok) && (hr == WriteFailed ==> refused) && (old(refused) ==> refused)
    {
      hide VideoWrites, AudioWrites;
      var held := pending;
      pending, finished := None, true;
      if held.None? { return Ok; }
      hr := WriteSample(true, held.value);
    }

    /** Accepts a sample, or rejects its timing. */
    method Push(video: bool, s: Sample) returns (hr: Status)
      requires Valid() && !finished
      modifies this
      ensures Valid() && !finished
      ensures !fragmented ==> hr != InvalidTimestamp
      ensures old(clean) && fragmented ==>
                var before := if video then old(videoIn) else old(audioIn);
                hr == InvalidTimestamp <==>
                  || s.time < 0 || s.duration <= 0 || (before == [] && s.time > 50000000)
                  || (video && before != [] && s.time <= before[|before| - 1].time)
      ensures hr == InvalidTimestamp ==> videoIn == old(videoIn) && audioIn == old(audioIn) && clean == old(clean)
      ensures hr == Ok && clean ==> videoIn == old(videoIn) + (if video then [s] else []) && audioIn == old(audioIn) + (if video then [] else [s])
      ensures clean == (old(clean) && hr != WriteFailed) && (hr == WriteFailed ==> refused) && (old(refused) ==> refused)
    {
      hide VideoWrites, AudioWrites, Chunks;
      if !fragmented {
        hr := WriteSample(video, s);
        if video { videoIn := videoIn + [s]; } else { audioIn := audioIn + [s]; }
        return;
      }
      if s.time < 0 || s.duration <= 0 { return InvalidTimestamp; }
      if video { hr := PushVideo(s); } else { hr := PushAudio(s); }
    }

    method PushVideo(s: Sample) returns (hr: Status)
      requires Valid() && !finished && fragmented && s.time >= 0 && s.duration > 0
      modifies `firstVideo, `pending, `pendingTime, `videoLog, `audioLog, `clean, `refused, `videoIn
      ensures Valid() && audioIn == old(audioIn) && audioLog == old(audioLog)
      ensures hr == InvalidTimestamp ==> Rejects(old(videoIn), audioIn, true, s)
      ensures old(clean) && Rejects(old(videoIn), audioIn, true, s) ==> hr == InvalidTimestamp
      ensures hr == InvalidTimestamp ==> videoIn == old(videoIn) && clean == old(clean)
      ensures hr == Ok && clean ==> videoIn == old(videoIn) + [s]
      ensures clean == (old(clean) && hr != WriteFailed) && (hr == WriteFailed ==> refused) && (old(refused) ==> refused)
    {
      hide Valid, Rejects;
      FirstOrLater(s);
      if pending.Some? {
        hr := PushNext(s);
      } else if firstVideo {
        hr := PushFirst(s);
      } else {
        hr := Ok;
        Resume(s);
      }
    }

    lemma FirstOrLater(s: Sample)
      requires Valid() && fragmented && s.time >= 0 && s.duration > 0
      ensures pending.Some? ==> videoIn != [] && (Rejects(videoIn, audioIn, true, s) <==> s.time <= pendingTime)
      ensures pending.None? ==> firstVideo || !clean || finished
      ensures firstVideo ==> videoIn == [] && (Rejects(videoIn, audioIn, true, s) <==> s.time > MAX_PREFIX)
    {
      hide VideoWrites, AudioWrites;
    }

    /** The held sample lasts until this one, and this one is held. */
    method PushNext(s: Sample) returns (hr: Status)
      requires Valid() && !finished && fragmented && pending.Some? && s.time >= 0 && s.duration > 0
      modifies `pending, `pendingTime, `videoLog, `audioLog, `clean, `refused, `videoIn
      ensures Valid() && audioLog == old(audioLog)
      ensures hr == InvalidTimestamp <==> s.time <= old(pendingTime)
      ensures hr == InvalidTimestamp ==> videoIn == old(videoIn) && clean == old(clean)
      ensures hr == Ok && clean ==> videoIn == old(videoIn) + [s]
      ensures clean == (old(clean) && hr != WriteFailed) && (hr == WriteFailed ==> refused) && (old(refused) ==> refused)
    {
      hide VideoWrites, AudioWrites;
      if s.time <= pendingTime { return InvalidTimestamp; }
      var held := pending.value.(duration := s.time - pendingTime);
      if clean { VideoGrows(videoLog, pending.value, videoIn, s); }
      pending := None;
      hr := WriteSample(true, held);
      videoIn := videoIn + [s];
      if hr == Ok { pending, pendingTime := Some(s), s.time; }
    }

    /** The first sample may not come too late; one that does not start at zero is written once
        more for the time before it. */
    method PushFirst(s: Sample) returns (hr: Status)
      requires Valid() && !finished && fragmented && pending.None? && firstVideo && s.time >= 0 && s.duration > 0
      modifies `firstVideo, `pending, `pendingTime, `videoLog, `audioLog, `clean, `refused, `videoIn
      ensures Valid() && audioLog == old(audioLog)
      ensures hr == InvalidTimestamp <==> s.time > MAX_PREFIX
      ensures hr == InvalidTimestamp ==> videoIn == old(videoIn) && clean == old(clean)
      ensures hr == Ok && clean ==> videoIn == old(videoIn) + [s]
      ensures clean == (old(clean) && hr != WriteFailed) && (hr == WriteFailed ==> refused) && (old(refused) ==> refused)
    {
      hide VideoWrites, AudioWrites;
      if s.time > MAX_PREFIX { return InvalidTimestamp; }
      firstVideo := false;
      VideoStarts(s);
      assert videoIn + [s] == [s];
      hr := Ok;
      if s.time != 0 { hr := WriteSample(true, Sample(0, s.time, s.payload)); }
      videoIn := videoIn + [s];
      if hr == Ok { pending, pendingTime := Some(s), s.time; }
    }

    /** After a failed write the next sample is held again. */
    method Resume(s: Sample)
      requires Valid() && !finished && fragmented && pending.None? && !firstVideo
      modifies `pending, `pendingTime, `videoIn
      ensures Valid() && !clean && videoIn == old(videoIn) + [s]
    {
      hide VideoWrites, AudioWrites;
      videoIn := videoIn + [s];
      pending, pendingTime := Some(s), s.time;
    }

    method PushAudio(s: Sample) returns (hr: Status)
      requires Valid() && !finished && fragmented && s.time >= 0 && s.duration > 0
      modifies `firstAudio, `videoLog, `audioLog, `clean, `refused, `audioIn
      ensures Valid() && videoIn == old(videoIn) && videoLog == old(videoLog)
      ensures hr == InvalidTimestamp <==> Rejects(videoIn, old(audioIn), false, s)
      ensures hr == InvalidTimestamp ==> audioIn == old(audioIn) && clean == old(clean)
      ensures hr == Ok && clean ==> audioIn == old(audioIn) + [s]
      ensures clean == (old(clean) && hr != WriteFailed) && (hr == WriteFailed ==> refused) && (old(refused) ==> refused)
    {
      hide VideoWrites, AudioWrites, Chunks;
      AudioGrows(audioIn, s);
      if firstAudio {
        if s.time > MAX_PREFIX { return InvalidTimestamp; }
        firstAudio := false;
        hr := PrefixAudio(s.time);
        if hr != Ok { audioIn := audioIn + [s]; return; }
      }
      hr := WriteSample(false, s);
      audioIn := audioIn + [s];
    }

    method PrefixAudio(offset: nat) returns (hr: Status)
      modifies `videoLog, `audioLog, `clean, `refused
      ensures hr == Ok || hr == WriteFailed
      ensures clean == (old(clean) && hr == Ok) && (hr == WriteFailed ==> refused) && (old(refused) ==> refused)
      ensures hr == Ok ==> audioLog == old(audioLog) + Chunks(Frames(offset))
      ensures videoLog == old(videoLog)
    {
      hide Chunks, Ticks;
      var frames := (offset * 48000 + 5000000) / 10000000;
      var first := 0;
      NoChunks(audioLog);
      while first < frames
        invariant 0 <= first <= frames && (first % 4800 == 0 || first == frames)
        invariant audioLog == old(audioLog) + Chunks(first) && videoLog == old(videoLog)
        invariant clean == old(clean) && (old(refused) ==> refused)
      {
        var count := if frames - first < 4800 then frames - first else 4800;
        hr := WriteSilence(first, count);
        if hr != Ok { return; }
        NextChunk(first, count);
        first := first + count;
      }
      return Ok;
    }

    /** A finished recording without a failed write, in terms of what was accepted: both logs start
        at zero, with the first picture or with silence, every picture lasts until the next one,
        and audio follows as it came. */
    lemma Logged()
      requires Valid() && clean && fragmented && finished
      ensures var lead := if videoIn != [] && videoIn[0].time > 0 then 1 else 0;
              && |videoLog| == |videoIn| + lead
              && (lead == 1 ==> videoLog[0] == Sample(0, videoIn[0].time, videoIn[0].payload))
              && forall j :: lead <= j < |videoLog| ==>
                   var i := j - lead;
                   videoLog[j] == Sample(videoIn[i].time, if i + 1 < |videoIn| then videoIn[i + 1].time - videoIn[i].time else videoIn[i].duration,
                                         videoIn[i].payload)
      ensures audioIn == [] ==> audioLog == []
      ensures audioIn != [] && audioIn[0].time >= 0 ==>
                var frames := (audioIn[0].time * 48000 + 5000000) / 10000000;
                var n := (frames + 4799) / 4800;
                && |audioLog| == n + |audioIn| && n >= 0 && audioLog[n..] == audioIn
                && forall k :: 0 <= k < n ==>
                     var count := if frames - 4800 * k < 4800 then frames - 4800 * k else 4800;
                     audioLog[k] == Sample(1000000 * k, (4800 * k + count) * 10000000 / 48000 - 1000000 * k, Silence(4 * count))
    {
      hide VideoWrites, AudioWrites;
      VideoLogged(videoIn);
      AudioPlaced(audioIn);
    }

    method WriteSilence(first: nat, count: nat) returns (hr: Status)
      modifies `videoLog, `audioLog, `clean, `refused
      ensures hr == Ok || hr == WriteFailed
      ensures clean == (old(clean) && hr == Ok) && videoLog == old(videoLog) && (hr == WriteFailed ==> refused) && (old(refused) ==> refused)
      ensures hr == Ok ==> audioLog == old(audioLog) + [Sample(Ticks(first), Ticks(first + count) - Ticks(first), Silence(count * 4))]
    {
      hr := WriteSample(false, Sample(first * 10000000 / 48000, (first + count) * 10000000 / 48000 - first * 10000000 / 48000, Silence(count * 4)));
    }
  }

  // ---- the logs sample by sample ----

  /** A lead, if the first picture is late, then every picture until the next one. */
  lemma VideoLogged(s: seq<Sample>)
    ensures var w, lead := VideoWrites(s), if s != [] && s[0].time > 0 then 1 else 0;
            && |w| == |s| + lead
            && (lead == 1 ==> w[0] == Sample(0, s[0].time, s[0].payload))
            && forall j :: lead <= j < |w| ==>
                 var i := j - lead;
                 w[j] == Sample(s[i].time, if i + 1 < |s| then s[i + 1].time - s[i].time else s[i].duration, s[i].payload)
  {
  }

  /** Whole chunks of 100 ms and what is left. */
  lemma {:induction false} ChunksLogged(frames: nat)
    ensures |Chunks(frames)| == (frames + 4799) / 4800
    ensures forall k :: 0 <= k < |Chunks(frames)| ==>
              var count := if frames - 4800 * k < 4800 then frames - 4800 * k else 4800;
              Chunks(frames)[k] == Sample(1000000 * k, (4800 * k + count) * 10000000 / 48000 - 1000000 * k, Silence(4 * count))
    decreases frames
  {
    if frames > 0 {
      var first := (frames - 1) / 4800 * 4800;
      ChunksLogged(first);
      hide Chunks;
      LastChunk(frames);
    }
  }

  lemma LastChunk(frames: nat)
    requires frames > 0
    ensures var k: nat := (frames - 1) / 4800; var first := 4800 * k;
            && first < frames <= first + 4800 && (frames + 4799) / 4800 == k + 1 && (first + 4799) / 4800 == k
            && Chunks(frames) == Chunks(first) + [Sample(1000000 * k, frames * 10000000 / 48000 - 1000000 * k, Silence(4 * (frames - first)))]
  {
    var k: nat := (frames - 1) / 4800;
    WholeTicks(k);
  }

  lemma WholeTicks(k: nat)
    ensures 4800 * k * 10000000 / 48000 == 1000000 * k
  {
  }

  lemma NoChunks(log: seq<Sample>)
    ensures log == log + Chunks(0)
  {
  }

  /** The timing that is refused: a start too late, or video that does not advance. */
  ghost predicate Rejects(videoIn: seq<Sample>, audioIn: seq<Sample>, video: bool, s: Sample) {
    || s.time < 0 || s.duration <= 0
    || (video && videoIn != [] && s.time <= videoIn[|videoIn| - 1].time)
    || (if video then videoIn == [] && s.time > MAX_PREFIX else audioIn == [] && s.time > MAX_PREFIX)
  }

  lemma NextChunk(first: nat, count: nat)
    requires first % 4800 == 0 && 0 < count <= 4800
    ensures Chunks(first + count) == Chunks(first) + [Sample(Ticks(first), Ticks(first + count) - Ticks(first), Silence(count * 4))]
  {
    assert (first + count - 1) / 4800 * 4800 == first;
  }

  lemma VideoGrows(log: seq<Sample>, held: Sample, s: seq<Sample>, next: Sample)
    requires s != [] && log + [held] == VideoWrites(s) && held == s[|s| - 1]
    ensures log + [held.(duration := next.time - held.time)] + [next] == VideoWrites(s + [next])
  {
    var n := |s|;
    assert Lead(s + [next]) == Lead(s);
    assert Stretched(s + [next]) == Stretched(s)[..n - 1] + [s[n - 1].(duration := next.time - s[n - 1].time), next];
    var w := VideoWrites(s);
    assert log == w[..|w| - 1] == Lead(s) + Stretched(s)[..n - 1];
  }

  lemma AudioGrows(s: seq<Sample>, next: Sample)
    ensures AudioWrites([]) == []
    ensures s == [] && next.time >= 0 ==> AudioWrites(s + [next]) == Chunks(Frames(next.time)) + [next]
    ensures s != [] ==> AudioWrites(s + [next]) == AudioWrites(s) + [next]
  {
    hide Chunks;
  }

  lemma VideoStarts(s: Sample)
    requires s.time >= 0
    ensures VideoWrites([s]) == (if s.time != 0 then [Sample(0, s.time, s.payload)] else []) + [s]
    ensures VideoWrites([]) == []
  {
  }

  // ---- tiling ----

  /** Consecutive samples cover an interval without gap or overlap. */
  ghost predicate Tiles(s: seq<Sample>, from: int, to: int) {
    if s == [] then from == to
    else
      var last := s[|s| - 1];
      last.duration > 0 && last.time + last.duration == to && Tiles(s[..|s| - 1], from, last.time)
  }

  /** Samples a recording may be made of: positive durations and increasing times. */
  ghost predicate Advancing(s: seq<Sample>) {
    && (forall i :: 0 <= i < |s| ==> s[i].time >= 0 && s[i].duration > 0)
    && (forall i, j :: 0 <= i < j < |s| ==> s[i].time < s[j].time)
  }

  lemma {:induction false} StretchedTiles(s: seq<Sample>, n: nat)
    requires Advancing(s) && n < |s|
    ensures Tiles(Lead(s) + Stretched(s)[..n], 0, s[n].time)
    decreases n
  {
    hide Tiles, Lead, Stretched, Advancing;
    if n == 0 {
      LeadTiles(s);
      assert Lead(s) + Stretched(s)[..0] == Lead(s);
    } else {
      StretchedTiles(s, n - 1);
      StretchedAt(s, n - 1);
      TilesOneMore(Lead(s) + Stretched(s)[..n - 1], 0, Stretched(s)[n - 1]);
      assert Lead(s) + Stretched(s)[..n] == Lead(s) + Stretched(s)[..n - 1] + [Stretched(s)[n - 1]];
    }
  }

  lemma LeadTiles(s: seq<Sample>)
    requires Advancing(s) && s != []
    ensures Tiles(Lead(s), 0, s[0].time)
  {
    if s[0].time > 0 { assert Lead(s)[..0] == []; }
  }

  lemma StretchedAt(s: seq<Sample>, i: nat)
    requires Advancing(s) && i < |s|
    ensures var x := Stretched(s)[i];
            x.time == s[i].time && x.duration > 0 && x.time + x.duration == if i + 1 < |s| then s[i + 1].time else s[i].time + s[i].duration
  {
  }

  lemma TilesOneMore(s: seq<Sample>, from: int, x: Sample)
    requires Tiles(s, from, x.time) && x.duration > 0
    ensures Tiles(s + [x], from, x.time + x.duration)
  {
    assert (s + [x])[..|s|] == s;
  }

  /** The video written for any advancing samples tiles the recording from zero to its end. */
  lemma VideoTiles(s: seq<Sample>)
    requires Advancing(s) && s != []
    ensures Tiles(VideoWrites(s), 0, s[|s| - 1].time + s[|s| - 1].duration)
  {
    hide Tiles, Lead, Stretched, Advancing;
    var n := |s| - 1;
    StretchedTiles(s, n);
    StretchedAt(s, n);
    TilesOneMore(Lead(s) + Stretched(s)[..n], 0, Stretched(s)[n]);
    assert VideoWrites(s) == Lead(s) + Stretched(s)[..n] + [Stretched(s)[n]];
  }

  /** The silent prefix tiles up to a whole number of samples, the one nearest to the offset. */
  lemma {:induction false} PrefixTiles(frames: nat)
    ensures Tiles(Chunks(frames), 0, Ticks(frames))
    ensures |Chunks(frames)| == (frames + 4799) / 4800
    decreases frames
  {
    if frames > 0 {
      var first := (frames - 1) / 4800 * 4800;
      PrefixTiles(first);
      assert Chunks(frames)[..|Chunks(frames)| - 1] == Chunks(first);
    }
  }

  lemma PrefixRounds(offset: nat)
    ensures -5000000 <= Frames(offset) * 10000000 - offset * 48000 <= 5000000
    ensures offset <= MAX_PREFIX ==> (Frames(offset) + 4799) / 4800 <= 50
  {
  }

  // ---- after pausing ----

  /** What the pause mapping keeps of one stream, as samples for the timeline. */
  ghost function Kept(ps: seq<PauseTimeline.Packet>, n: nat, video: bool): seq<Sample>
    requires n <= |ps|
  {
    if n == 0 then []
    else
      var m := PauseTimeline.Output(ps, n - 1);
      Kept(ps, n - 1, video) +
      if m.keep && ps[n - 1].video == video then [Sample(m.time, m.duration, Frame(n - 1))] else []
  }

  lemma {:induction false} KeptFrom(ps: seq<PauseTimeline.Packet>, n: nat, video: bool, k: nat) returns (i: nat)
    requires n <= |ps| && k < |Kept(ps, n, video)|
    ensures i < n && ps[i].video == video && PauseTimeline.Output(ps, i).keep
    ensures Kept(ps, n, video)[k] == Sample(PauseTimeline.Output(ps, i).time, PauseTimeline.Output(ps, i).duration, Frame(i))
  {
    if k < |Kept(ps, n - 1, video)| { i := KeptFrom(ps, n - 1, video, k); } else { i := n - 1; }
  }

  ghost predicate Passes(ps: seq<PauseTimeline.Packet>, k: nat, video: bool)
    requires k < |ps|
  {
    ps[k].video == video && PauseTimeline.Output(ps, k).keep
  }

  /** The packets of a stream that are kept, in order. */
  ghost predicate Keeps(ps: seq<PauseTimeline.Packet>, n: nat, video: bool, at: seq<nat>)
    requires n <= |ps|
  {
    && (forall i :: 0 <= i < |at| ==> at[i] < n && Passes(ps, at[i], video))
    && (forall i, j :: 0 <= i < j < |at| ==> at[i] < at[j])
    && (forall k :: 0 <= k < n && Passes(ps, k, video) ==> k in at)
  }

  /** Exactly those packets reach the timeline, with their mapped times. */
  lemma {:induction false} KeptPlaced(ps: seq<PauseTimeline.Packet>, n: nat, video: bool) returns (at: seq<nat>)
    requires n <= |ps|
    ensures Keeps(ps, n, video, at) && |at| == |Kept(ps, n, video)|
    ensures forall i :: 0 <= i < |at| ==>
              && at[i] < n
              && Kept(ps, n, video)[i] == Sample(PauseTimeline.Output(ps, at[i]).time, PauseTimeline.Output(ps, at[i]).duration, Frame(at[i]))
  {
    hide PauseTimeline.Output, Keeps;
    at := [];
    if n == 0 {
      KeepsNone(ps, video);
    } else {
      at := KeptPlaced(ps, n - 1, video);
      KeepsMore(ps, n, video, at);
      if PauseTimeline.Output(ps, n - 1).keep && ps[n - 1].video == video { at := at + [n - 1]; }
    }
  }

  lemma KeepsNone(ps: seq<PauseTimeline.Packet>, video: bool)
    ensures Keeps(ps, 0, video, [])
  {
  }

  lemma KeepsMore(ps: seq<PauseTimeline.Packet>, n: nat, video: bool, at: seq<nat>)
    requires 0 < n <= |ps| && Keeps(ps, n - 1, video, at)
    ensures Keeps(ps, n, video, if Passes(ps, n - 1, video) then at + [n - 1] else at)
  {
    hide Passes;
    var more := if Passes(ps, n - 1, video) then at + [n - 1] else at;
    assert forall i :: 0 <= i < |at| ==> more[i] == at[i];
    forall k | 0 <= k < n && Passes(ps, k, video) ensures k in more {
      if k < n - 1 { assert k in at; }
    }
  }

  lemma {:induction false} KeptAdvances(ps: seq<PauseTimeline.Packet>, n: nat, video: bool)
    requires PauseTimeline.VideoIncreases(ps) && PauseTimeline.TrimsFit(ps) && n <= |ps|
    ensures Advancing(Kept(ps, n, video))
    decreases n
  {
    hide PauseTimeline.Output, PauseTimeline.TrimsFit, PauseTimeline.VideoIncreases, Kept, Advancing;
    if n == 0 {
      NothingKept(ps, video);
    } else {
      KeptAdvances(ps, n - 1, video);
      var m := PauseTimeline.Output(ps, n - 1);
      if m.keep && ps[n - 1].video == video {
        KeptLasts(ps, n - 1);
        var before := Kept(ps, n - 1, video);
        forall k | 0 <= k < |before| ensures before[k].time < m.time {
          var i := KeptFrom(ps, n - 1, video, k);
          PauseTimeline.RunRemembers(ps, i, n - 1);
          PauseTimeline.PauseMapping(ps, i, n - 1);
        }
        AdvancingAppend(before, Sample(m.time, m.duration, Frame(n - 1)));
        KeptStep(ps, n, video);
      } else {
        KeptStep(ps, n, video);
      }
    }
  }

  lemma NothingKept(ps: seq<PauseTimeline.Packet>, video: bool)
    ensures Kept(ps, 0, video) == [] && Advancing([])
  {
  }

  lemma KeptLasts(ps: seq<PauseTimeline.Packet>, i: nat)
    requires PauseTimeline.VideoIncreases(ps) && PauseTimeline.TrimsFit(ps) && i < |ps| && PauseTimeline.Output(ps, i).keep
    ensures PauseTimeline.Output(ps, i).time >= 0 && PauseTimeline.Output(ps, i).duration > 0
  {
    hide PauseTimeline.Output, PauseTimeline.TrimsFit, PauseTimeline.VideoIncreases;
    PauseTimeline.RunRemembers(ps, i, i + 1);
  }

  lemma KeptStep(ps: seq<PauseTimeline.Packet>, n: nat, video: bool)
    requires 0 < n <= |ps|
    ensures var m := PauseTimeline.Output(ps, n - 1);
            Kept(ps, n, video) == if m.keep && ps[n - 1].video == video
                                  then Kept(ps, n - 1, video) + [Sample(m.time, m.duration, Frame(n - 1))] else Kept(ps, n - 1, video)
  {
  }

  lemma AdvancingAppend(s: seq<Sample>, x: Sample)
    requires Advancing(s) && x.time >= 0 && x.duration > 0
    requires forall k :: 0 <= k < |s| ==> s[k].time < x.time
    ensures Advancing(s + [x])
  {
  }

  /** Whatever was paused: what is left of a stream is accepted sample by sample, once its first
      sample is early enough, and the video of the finished recording has no gap or overlap. */
  lemma GaplessAfterPausing(ps: seq<PauseTimeline.Packet>, video: bool, k: nat, others: seq<Sample>)
    requires PauseTimeline.VideoIncreases(ps) && PauseTimeline.TrimsFit(ps)
    requires k < |Kept(ps, |ps|, video)|
    ensures var s := Kept(ps, |ps|, video);
            && (if video then Rejects(s[..k], others, true, s[k]) else Rejects(others, s[..k], false, s[k]))
               == (k == 0 && s[0].time > MAX_PREFIX)
            && (video ==> Tiles(VideoWrites(s), 0, s[|s| - 1].time + s[|s| - 1].duration))
  {
    hide VideoWrites, Tiles, Kept;
    KeptAdvances(ps, |ps|, video);
    var s := Kept(ps, |ps|, video);
    if video { VideoTiles(s); }
    assert k > 0 ==> s[k - 1].time < s[k].time;
  }

  /** What is kept of the first packets is the beginning of what is kept of all. */
  lemma {:induction false} KeptPrefix(ps: seq<PauseTimeline.Packet>, n: nat, m: nat, video: bool)
    requires n <= m <= |ps|
    ensures Kept(ps, n, video) <= Kept(ps, m, video)
    decreases m
  {
    hide PauseTimeline.Output, Kept;
    if n < m {
      KeptPrefix(ps, n, m - 1, video);
      KeptStep(ps, m, video);
    }
  }

  /** The first sample kept of each stream comes within the longest prefix. */
  ghost predicate StartsEarly(ps: seq<PauseTimeline.Packet>) {
    forall video: bool :: Kept(ps, |ps|, video) != [] ==> Kept(ps, |ps|, video)[0].time <= MAX_PREFIX
  }

  /** A kept packet is refused only if it is the first of its stream and too late. */
  lemma KeptAccepted(ps: seq<PauseTimeline.Packet>, n: nat)
    requires PauseTimeline.VideoIncreases(ps) && PauseTimeline.TrimsFit(ps) && StartsEarly(ps)
    requires n < |ps| && PauseTimeline.Output(ps, n).keep
    ensures var m := PauseTimeline.Output(ps, n);
            !Rejects(Kept(ps, n, true), Kept(ps, n, false), ps[n].video, Sample(m.time, m.duration, Frame(n)))
  {
    hide PauseTimeline.Output, PauseTimeline.TrimsFit, PauseTimeline.VideoIncreases, Kept, VideoWrites, Tiles, Rejects;
    var video := ps[n].video;
    var k := |Kept(ps, n, video)|;
    KeptStep(ps, n + 1, video);
    KeptPrefix(ps, n, |ps|, video);
    KeptPrefix(ps, n + 1, |ps|, video);
    var s := Kept(ps, |ps|, video);
    assert s[..k] == Kept(ps, n, video) && s[k] == Kept(ps, n + 1, video)[k];
    GaplessAfterPausing(ps, video, k, Kept(ps, n, !video));
  }

  /** The hypotheses of the pause mapping, and streams that start early enough. */
  ghost predicate Orderly(ps: seq<PauseTimeline.Packet>) {
    PauseTimeline.VideoIncreases(ps) && PauseTimeline.TrimsFit(ps) && StartsEarly(ps)
  }

  /** The mapping and the timeline have taken the first `n` packets. */
  ghost predicate Taken(ps: seq<PauseTimeline.Packet>, n: nat, mapper: PauseTimeline.RecordingPauseTimeline, timeline: Timeline)
    requires n <= |ps|
    reads mapper, timeline
  {
    && mapper.State() == PauseTimeline.StateAfter(ps, n) && timeline.clean
    && timeline.videoIn == Kept(ps, n, true) && timeline.audioIn == Kept(ps, n, false)
  }

  lemma MappedStep(ps: seq<PauseTimeline.Packet>, n: nat)
    requires n < |ps|
    ensures var p := PauseTimeline.Packet(ps[n].video, ps[n].generation, ps[n].time, ps[n].duration);
            (PauseTimeline.StateAfter(ps, n + 1), PauseTimeline.Output(ps, n)) == PauseTimeline.MapStep(PauseTimeline.StateAfter(ps, n), p)
  {
  }

  method RecordOne(ps: seq<PauseTimeline.Packet>, n: nat, mapper: PauseTimeline.RecordingPauseTimeline, timeline: Timeline)
    returns (hr: Status)
    requires n < |ps| && timeline.Valid() && !timeline.finished && timeline.fragmented && Taken(ps, n, mapper, timeline)
    modifies mapper, timeline
    ensures timeline.Valid() && !timeline.finished
    ensures hr == WriteFailed ==> timeline.refused
    ensures hr == Ok ==> Taken(ps, n + 1, mapper, timeline)
    ensures Orderly(ps) ==> hr != InvalidTimestamp
  {
    hide Kept, Timeline.Valid, PauseTimeline.MapStep, PauseTimeline.StateAfter, PauseTimeline.Output,
         PauseTimeline.TrimsFit, PauseTimeline.VideoIncreases, StartsEarly;
    var m := mapper.Map(ps[n].video, ps[n].generation, ps[n].time, ps[n].duration);
    MappedStep(ps, n);
    KeptStep(ps, n + 1, true);
    KeptStep(ps, n + 1, false);
    hr := Ok;
    if m.keep {
      if Orderly(ps) { KeptAccepted(ps, n); }
      hr := timeline.Push(ps[n].video, Sample(m.time, m.duration, Frame(n)));
    }
  }

  /** One recording: every packet goes through the pause mapping, and what is kept through the
      timeline, which is finished whatever happened. */
  method RecordPaused(ps: seq<PauseTimeline.Packet>)
    returns (timeline: Timeline, hr: Status, ghost video: seq<nat>, ghost audio: seq<nat>)
    ensures fresh(timeline) && timeline.Valid() && timeline.finished
    ensures hr == WriteFailed ==> timeline.refused
    ensures Keeps(ps, |ps|, true, video) && Keeps(ps, |ps|, false, audio)
    ensures hr == Ok ==>
              var lead := if video != [] && PauseTimeline.Output(ps, video[0]).time > 0 then 1 else 0;
              && |timeline.videoLog| == |video| + lead
              && (lead == 1 ==> timeline.videoLog[0] == Sample(0, PauseTimeline.Output(ps, video[0]).time, Frame(video[0])))
              && forall j :: lead <= j < |timeline.videoLog| ==>
                   && timeline.videoLog[j].time == PauseTimeline.Output(ps, video[j - lead]).time
                   && timeline.videoLog[j].payload == Frame(video[j - lead])
    ensures hr == Ok ==>
              && |timeline.audioLog| >= |audio|
              && forall i :: 0 <= i < |audio| ==>
                   var m, silent := PauseTimeline.Output(ps, audio[i]), |timeline.audioLog| - |audio|;
                   timeline.audioLog[silent..][i] == Sample(m.time, m.duration, Frame(audio[i]))
    ensures hr == Ok && audio != [] && PauseTimeline.Output(ps, audio[0]).time >= 0 ==>
              |timeline.audioLog| - |audio| == ((PauseTimeline.Output(ps, audio[0]).time * 48000 + 5000000) / 10000000 + 4799) / 4800
    ensures Orderly(ps) ==> hr != InvalidTimestamp
    ensures Orderly(ps) && hr == Ok ==> Gapless(ps, timeline.videoLog, timeline.audioLog)
  {
    hide Kept, VideoWrites, AudioWrites, Gapless, Keeps, PauseTimeline.Output, PauseTimeline.TrimsFit, PauseTimeline.VideoIncreases, StartsEarly;
    timeline, hr := FeedAll(ps);
    video := KeptPlaced(ps, |ps|, true);
    audio := KeptPlaced(ps, |ps|, false);
    KeepsInRange(ps, video, true);
    KeepsInRange(ps, audio, false);
    if hr == Ok {
      VideoLogged(Kept(ps, |ps|, true));
      AudioLogged(Kept(ps, |ps|, false));
    }
  }

  lemma KeepsInRange(ps: seq<PauseTimeline.Packet>, at: seq<nat>, video: bool)
    requires Keeps(ps, |ps|, video, at)
    ensures forall i :: 0 <= i < |at| ==> at[i] < |ps|
  {
    hide PauseTimeline.Output;
  }

  /** Silence in whole chunks and what is left, then the audio. */
  lemma AudioPlaced(s: seq<Sample>)
    ensures s == [] ==> AudioWrites(s) == []
    ensures s != [] && s[0].time >= 0 ==>
              var frames := (s[0].time * 48000 + 5000000) / 10000000;
              var n := (frames + 4799) / 4800;
              && |AudioWrites(s)| == n + |s| && n >= 0 && AudioWrites(s)[n..] == s
              && forall k :: 0 <= k < n ==>
                   var count := if frames - 4800 * k < 4800 then frames - 4800 * k else 4800;
                   AudioWrites(s)[k] == Sample(1000000 * k, (4800 * k + count) * 10000000 / 48000 - 1000000 * k, Silence(4 * count))
  {
    hide Chunks;
    if s != [] && s[0].time >= 0 {
      ChunksLogged(Frames(s[0].time));
      assert AudioWrites(s)[|Chunks(Frames(s[0].time))|..] == s;
    }
  }

  lemma AudioLogged(s: seq<Sample>)
    ensures |AudioWrites(s)| >= |s| && AudioWrites(s)[|AudioWrites(s)| - |s|..] == s
    ensures s != [] && s[0].time >= 0 ==> |AudioWrites(s)| - |s| == ((s[0].time * 48000 + 5000000) / 10000000 + 4799) / 4800
  {
    hide Chunks;
    if s != [] && s[0].time >= 0 { ChunksLogged(Frames(s[0].time)); }
  }

  method FeedAll(ps: seq<PauseTimeline.Packet>) returns (timeline: Timeline, hr: Status)
    ensures fresh(timeline) && timeline.Valid() && timeline.finished
    ensures hr == WriteFailed ==> timeline.refused
    ensures hr == Ok ==>
              && timeline.videoLog == VideoWrites(Kept(ps, |ps|, true))
              && timeline.audioLog == AudioWrites(Kept(ps, |ps|, false))
    ensures Orderly(ps) ==> hr != InvalidTimestamp
    ensures Orderly(ps) && hr == Ok ==> Gapless(ps, timeline.videoLog, timeline.audioLog)
  {
    hide Kept, VideoWrites, AudioWrites, Gapless, PauseTimeline.TrimsFit, PauseTimeline.VideoIncreases, StartsEarly;
    var mapper := new PauseTimeline.RecordingPauseTimeline();
    timeline := new Timeline(true);
    NothingKept(ps, true);
    NothingKept(ps, false);
    hr := Ok;
    for n := 0 to |ps|
      invariant timeline.Valid() && !timeline.finished && timeline.fragmented && fresh(timeline) && fresh(mapper)
      invariant Taken(ps, n, mapper, timeline) && hr == Ok
    {
      hr := RecordOne(ps, n, mapper, timeline);
      if hr != Ok { break; }
    }
    var last := timeline.Finish();
    if hr == Ok {
      hr := last;
      if Orderly(ps) { LogsGapless(ps); }
    }
  }

  /** Samples one after another, none beginning before the one before it ends. */
  ghost predicate Apart(s: seq<Sample>) {
    forall j, k :: 0 <= j < k < |s| ==> s[j].time + s[j].duration <= s[k].time
  }

  lemma {:induction false} KeptApart(ps: seq<PauseTimeline.Packet>, n: nat)
    requires PauseTimeline.VideoIncreases(ps) && PauseTimeline.TrimsFit(ps) && n <= |ps|
    ensures Apart(Kept(ps, n, false))
    decreases n
  {
    hide PauseTimeline.Output, PauseTimeline.TrimsFit, PauseTimeline.VideoIncreases, Kept;
    if n == 0 {
      NothingKept(ps, false);
    } else {
      KeptApart(ps, n - 1);
      KeptStep(ps, n, false);
      var before := Kept(ps, n - 1, false);
      if PauseTimeline.Output(ps, n - 1).keep && !ps[n - 1].video {
        forall k | 0 <= k < |before| ensures before[k].time + before[k].duration <= PauseTimeline.Output(ps, n - 1).time {
          var i := KeptFrom(ps, n - 1, false, k);
          PauseTimeline.PauseMapping(ps, i, n - 1);
        }
      }
    }
  }

  /** The video covers the recording without gap or overlap; the audio is a silent prefix that
      covers the time up to its first sample, to the nearest sample, and then what was kept, without
      overlap. */
  ghost predicate Gapless(ps: seq<PauseTimeline.Packet>, video: seq<Sample>, audio: seq<Sample>) {
    var v, a := Kept(ps, |ps|, true), Kept(ps, |ps|, false);
    && (if v == [] then video == [] else Tiles(video, 0, v[|v| - 1].time + v[|v| - 1].duration))
    && (if a == [] then audio == []
        else
          a[0].time >= 0 &&
          var frames := Frames(a[0].time);
          && audio == Chunks(frames) + a && Tiles(Chunks(frames), 0, Ticks(frames))
          && -5000000 <= frames * 10000000 - a[0].time * 48000 <= 5000000
          && Apart(a))
  }

  lemma {:induction false} LogsGapless(ps: seq<PauseTimeline.Packet>)
    requires PauseTimeline.VideoIncreases(ps) && PauseTimeline.TrimsFit(ps)
    ensures Gapless(ps, VideoWrites(Kept(ps, |ps|, true)), AudioWrites(Kept(ps, |ps|, false)))
  {
    hide Kept, Tiles, Chunks, Frames;
    var v, a := Kept(ps, |ps|, true), Kept(ps, |ps|, false);
    KeptAdvances(ps, |ps|, true);
    KeptAdvances(ps, |ps|, false);
    if v != [] { VideoTiles(v); }
    KeptApart(ps, |ps|);
    if a != [] {
      PrefixTiles(Frames(a[0].time));
      PrefixRounds(a[0].time);
    }
  }
}
