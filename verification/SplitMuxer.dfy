/**
  The fragmented MP4 sink of a recording, which may cut the recording into several files.

  Media Foundation and libavformat calls are choices the environment makes: a call may fail,
  and a successful packet write appends to the open part. `clean` says that no call of this
  sink has failed yet; the ghost sequences remember what each stage was handed.
*/
module SplitMuxer {
  import opened Wrappers
  import opened SplitArchive

  const MAX_PENDING_BYTES: nat := 32 * 1024 * 1024
  const MAX_PENDING_PACKETS: nat := 512
  const MAX_SAMPLE_BYTES: nat := 16 * 1024 * 1024
  const INT64_MAX: int := 0x7FFF_FFFF_FFFF_FFFF
  const NO_PTS: int := -0x8000_0000_0000_0000

  type Time = x: int | NO_PTS <= x <= INT64_MAX witness 0

  datatype Error = InvalidTimestamp | BufferOverflow | InvalidRequest | InvalidStreamData
                 | InvalidStreamNumber | InvalidMediaType | External

  /** `Incomplete` is the success code that says the header cannot be written yet. */
  datatype Status = Ok | Incomplete | Failed(error: Error)

  /** A sample as the encoder delivers it. */
  datatype Sample = Sample(video: bool, time: Time, duration: Time, decode: Option<Time>, size: nat,
                           clean: bool, idr: bool, payload: nat)

  function ToPacket(s: Sample): Packet {
    Packet(s.video, s.time, if s.decode.Some? then s.decode.value else s.time, s.duration, s.size, !s.video || s.clean, s.idr, s.payload)
  }

  ghost predicate Decoded(s: seq<Packet>) {
    && (forall i :: 0 <= i < |s| ==> NO_PTS < s[i].dts)
  }

  ghost predicate Increasing(s: seq<Packet>) {
    forall i, j :: 0 <= i < j < |s| ==> s[i].dts < s[j].dts
  }

  /** Decode times increase up to `last`, unless one of them is the no-timestamp value. */
  ghost predicate Monotone(s: seq<Packet>, last: int) {
    Decoded(s) ==> Increasing(s) && last == if s == [] then NO_PTS else s[|s| - 1].dts
  }

  lemma MonotoneAppend(s: seq<Packet>, last: int, p: Packet)
    requires Monotone(s, last) && (last == NO_PTS || last < p.dts)
    ensures Monotone(s + [p], p.dts)
  {
    assert forall i :: 0 <= i < |s| ==> (s + [p])[i] == s[i];
    assert (s + [p])[|s|] == p;
  }

  lemma NothingYet()
    ensures Retimed([]) == [] && Select([], true) == [] && Select([], false) == [] && Bytes([]) == 0 && Increasing([])
  {
  }

  /** Two consecutive pictures whose decode times are no valid duration apart. */
  ghost predicate TooFar(videos: seq<Packet>) {
    exists i :: 0 <= i < |videos| - 1 && !(0 < videos[i + 1].dts - videos[i].dts <= INT64_MAX)
  }

  lemma TooFarPrefix(shorter: seq<Packet>, longer: seq<Packet>)
    requires shorter <= longer && TooFar(shorter)
    ensures TooFar(longer)
  {
  }

  /** Bounds on a stream's absolute times are bounds on the times in its part. */
  lemma StreamTimes(part: Part, video: bool, at: seq<nat>, stream: seq<Packet>, next: Option<int>)
    requires Listed(part.written, video, at) && |at| == |stream|
    requires forall i :: 0 <= i < |at| ==> at[i] < |part.written| && stream[i] == Restore(part.written[at[i]], part.origin)
    requires forall p :: p in stream ==> p.pts >= part.origin && (next.Some? ==> p.pts < next.value)
    ensures forall n :: 0 <= n < |part.written| && part.written[n].video == video ==>
              part.written[n].pts >= 0 && (next.Some? ==> part.written[n].pts + part.origin < next.value)
    ensures stream != [] ==> exists n :: 0 <= n < |part.written| && part.written[n].video == video
  {
    if stream != [] { assert part.written[at[0]].video == video; }
    forall n | 0 <= n < |part.written| && part.written[n].video == video
      ensures part.written[n].pts >= 0 && (next.Some? ==> part.written[n].pts + part.origin < next.value)
    {
      var i :| 0 <= i < |at| && at[i] == n;
      assert stream[i] in stream;
    }
  }

  class Muxer {
    const split: bool
    const splitDuration: nat
    const splitBytes: nat
    const hevc: bool
    const hasVideo: bool
    const hasAudio: bool

    var failure: Option<Error>
    var format: bool
    var header: bool
    var trailerWritten: bool
    var finalized: bool

    var videoSeen: bool
    var audioSeen: bool
    var videoExtra: bool
    var audioExtra: bool
    var videoCodecHeader: bool
    var lastVideoDts: int
    var lastAudioDts: int
    var pendingVideo: Option<Packet>

    var pending: seq<Packet>
    var pendingBytes: nat
    var videoPackets: seq<Packet>
    var audioPackets: seq<Packet>
    var queuedBytes: nat

    var part: nat
    var closed: seq<Part>
    var written: seq<Packet>
    var segmentOrigin: int
    var segmentHasVideo: bool

    ghost var clean: bool
    ghost var refused: bool
    ghost var drained: bool
    ghost var videoQueued: seq<Packet>
    ghost var audioQueued: seq<Packet>
    ghost var videoWritten: seq<Packet>
    ghost var audioWritten: seq<Packet>
    ghost var videoIn: seq<Packet>
    ghost var audioIn: seq<Packet>

    constructor (split: bool, splitDuration: nat, splitBytes: nat, hevc: bool, hasVideo: bool, hasAudio: bool)
      ensures Valid() && clean && videoIn == [] && audioIn == [] && !finalized
      ensures this.split == split && this.splitDuration == splitDuration && this.splitBytes == splitBytes
      ensures this.hevc == hevc && this.hasVideo == hasVideo && this.hasAudio == hasAudio
    {
      this.split, this.splitDuration, this.splitBytes := split, splitDuration, splitBytes;
      this.hevc, this.hasVideo, this.hasAudio := hevc, hasVideo, hasAudio;
      failure, format, header, trailerWritten, finalized := None, false, false, false, false;
      videoSeen, audioSeen, videoExtra, audioExtra, videoCodecHeader := false, false, false, false, false;
      lastVideoDts, lastAudioDts, pendingVideo := NO_PTS, NO_PTS, None;
      pending, pendingBytes, videoPackets, audioPackets, queuedBytes := [], 0, [], [], 0;
      part, closed, written, segmentOrigin, segmentHasVideo := 1, [], [], 0, false;
      clean, refused, drained := true, false, false;
      videoQueued, audioQueued, videoWritten, audioWritten, videoIn, audioIn := [], [], [], [], [], [];
      new;
      hide *;
      StartsValid();
    }

    lemma StartsValid()
      requires failure.None? && !format && !header && !trailerWritten && !finalized && !drained && clean
      requires lastVideoDts == NO_PTS && lastAudioDts == NO_PTS && pendingVideo.None?
      requires pending == [] && pendingBytes == 0 && videoPackets == [] && audioPackets == [] && queuedBytes == 0
      requires part == 1 && closed == [] && written == [] && segmentOrigin == 0 && !segmentHasVideo
      requires videoQueued == audioQueued == videoWritten == audioWritten == videoIn == audioIn == []
      ensures Valid()
    {
      hide Sound, Rested, SafeKey, Of, Bytes, Select, Retimed, Decoded, Increasing;
      EmptyArchive(split, Minimum(), hevc);
      NothingYet();
      assert Accepted() && Healthy();
    }

    // ---- invariants ----

    ghost function Contents(): Archive
      reads `closed, `segmentOrigin, `written, `videoPackets, `audioPackets, `videoQueued, `audioQueued
    {
      Archive(closed, Part(segmentOrigin, written), videoPackets, audioPackets, videoQueued, audioQueued)
    }

    /** In time mode, the least distance between two cuts. */
    function Minimum(): nat {
      if splitBytes == 0 then splitDuration else 0
    }

    /** Accounting that survives every failure. */
    ghost predicate Accounted()
      reads `queuedBytes, `videoPackets, `audioPackets, `pendingBytes, `pending, `part, `closed
      reads `header, `format, `videoSeen, `videoExtra, `audioSeen, `audioExtra
    {
      && queuedBytes == Bytes(videoPackets) + Bytes(audioPackets)
      && queuedBytes <= MAX_PENDING_BYTES
      && |videoPackets| + |audioPackets| <= MAX_PENDING_PACKETS
      && pendingBytes == Bytes(pending) && pendingBytes <= MAX_PENDING_BYTES && |pending| <= MAX_PENDING_PACKETS
      && (forall i :: 0 <= i < |pending| ==> NO_PTS <= pending[i].dts <= INT64_MAX)
      && part == |closed| + 1
      && (header ==> format && (hasVideo ==> videoSeen && videoExtra) && (hasAudio ==> audioSeen && audioExtra))
    }

    /** Layer one: parts and queues, for a run without failures. */
    ghost predicate Consistent()
      reads `closed, `segmentOrigin, `written, `videoPackets, `audioPackets, `videoQueued, `audioQueued, `drained, `segmentHasVideo
    {
      && Sound(Contents(), split, drained, Minimum(), hevc)
      && (segmentHasVideo ==> split && Of(Contents().current, true) != [])
    }

    ghost predicate Healthy()
      reads `closed, `segmentOrigin, `written, `videoPackets, `audioPackets, `videoQueued, `audioQueued, `drained, `segmentHasVideo
    {
      Consistent() && Rested(Contents(), split, drained)
    }

    ghost predicate Writing()
      reads `queuedBytes, `videoPackets, `audioPackets, `pendingBytes, `pending, `part, `closed
      reads `header, `format, `videoSeen, `videoExtra, `audioSeen, `audioExtra
      reads `segmentOrigin, `written, `videoQueued, `audioQueued, `drained, `segmentHasVideo, `clean, `trailerWritten
    {
      && Accounted() && pending == []
      && (clean ==> Healthy() && header && !trailerWritten)
    }

    /** Between writing the audio before a boundary and the picture at that boundary. */
    ghost predicate AtBoundary(boundary: int)
      reads this
    {
      && Accounted() && pending == [] && split
      && (clean ==> Consistent() && header && !trailerWritten)
      && (clean ==> Calm(Contents(), drained, boundary))
    }

    /** Layer two: the look-ahead packet. */
    ghost predicate Lookahead()
      reads `audioQueued, `audioWritten, `pendingVideo, `videoQueued, `videoWritten
    {
      && audioQueued == audioWritten
      && (if pendingVideo.Some? then videoQueued + [pendingVideo.value] else videoQueued) == Retimed(videoWritten)
      && (pendingVideo.None? ==> videoWritten == [])
      && (forall i :: 0 <= i < |videoQueued| ==> videoQueued[i].duration > 0)
      && (pendingVideo.Some? ==> pendingVideo.value.video && NO_PTS <= pendingVideo.value.dts <= INT64_MAX)
    }

    /** Layer three: samples wait in `pending` until the header can be written. */
    ghost predicate Accepted()
      reads `videoIn, `audioIn, `videoWritten, `audioWritten, `pending, `lastVideoDts, `lastAudioDts
    {
      && videoIn == videoWritten + Select(pending, true)
      && audioIn == audioWritten + Select(pending, false)
      && InOrder()
    }

    /** Accepted decode times increase, as long as none of them is the no-timestamp value. */
    ghost predicate InOrder()
      reads `videoIn, `audioIn, `lastVideoDts, `lastAudioDts
    {
      Monotone(videoIn, lastVideoDts) && Monotone(audioIn, lastAudioDts)
    }

    ghost predicate Running()
      reads `closed, `segmentOrigin, `written, `videoPackets, `audioPackets, `videoQueued, `audioQueued, `drained, `segmentHasVideo
      reads `audioWritten, `videoWritten, `pendingVideo, `videoIn, `audioIn, `pending, `lastVideoDts, `lastAudioDts, `trailerWritten, `header
    {
      && Lookahead() && Accepted() && Healthy() && !trailerWritten
      && (!header ==> videoWritten == [] && audioWritten == [])
    }

    ghost predicate Valid()
      reads this
    {
      && Accounted()
      && (header ==> pending == [])
      && (!finalized ==> !drained && (clean <==> failure.None?))
      && (!finalized && clean ==> Running())
    }

    // ---- libavformat calls ----

    /** The only errors that are not of the sink's own making: a library call was refused, or the
        open file is already finished or has no streams. */
    ghost predicate Outside(e: Error)
      reads `refused, `trailerWritten
    {
      (e == External && refused) || (e == InvalidRequest && (trailerWritten || (!hasVideo && !hasAudio)))
    }

    /** A call of libavformat, of Media Foundation or of the file system. */
    method Ask() returns (ok: bool)
      modifies `refused
      ensures refused == (old(refused) || !ok)
    {
      ok := *;
      if !ok { refused := true; }
    }

    method Initialize() returns (st: Status)
      requires Accounted()
      modifies `format, `videoExtra, `audioExtra, `clean, `refused
      ensures Accounted()
      ensures clean == (old(clean) && st.Ok?) && !st.Incomplete? && (old(refused) ==> refused)
      ensures st.Failed? ==> Outside(st.error)
      ensures st.Ok? ==> format
      ensures old(format) ==> st.Ok? && videoExtra == old(videoExtra) && audioExtra == old(audioExtra)
      ensures st.Ok? && !old(format) ==> audioExtra && (videoCodecHeader ==> videoExtra)
    {
      hide Bytes;
      if format { return Ok; }
      if !hasVideo && !hasAudio { clean := false; return Failed(InvalidRequest); }
      var inType := *;
      var success := Ask();
      if !success { format, clean := *, false; return Failed(External); }
      format, videoExtra, audioExtra := true, inType || videoCodecHeader, true;
      return Ok;
    }

    /** Stores a packet in the open part, with its timestamps relative to the part. */
    method MuxRaw(p: Packet) returns (st: Status)
      modifies `written, `clean, `refused
      ensures clean == (old(clean) && st.Ok?) && !st.Incomplete? && (old(refused) ==> refused)
      ensures st.Failed? ==> Outside(st.error)
      ensures st.Ok? ==> !trailerWritten && written == old(written) + [p.(pts := p.pts - segmentOrigin, dts := p.dts - segmentOrigin)]
      ensures st.Failed? ==> written == old(written)
      ensures trailerWritten ==> st == Failed(InvalidRequest)
    {
      if trailerWritten { clean := false; return Failed(InvalidRequest); }
      var success := Ask();
      if !header || !success { clean, refused := false, true; return Failed(External); }
      written := written + [p.(pts := p.pts - segmentOrigin, dts := p.dts - segmentOrigin)];
      return Ok;
    }

    // ---- the drain ----

    /** The split rule: enough time or bytes, at a decodable key after the origin. */
    method WantsRoll(v: Packet) returns (st: Status, roll: bool, length: nat)
      modifies `clean, `refused
      ensures clean == (old(clean) && st.Ok?) && !st.Incomplete? && (old(refused) ==> refused)
      ensures st.Failed? ==> Outside(st.error)
      ensures st.Ok? ==> (roll <==>
                            && failure.None? && segmentHasVideo && v.pts > segmentOrigin
                            && v.key && (hevc ==> v.pts == v.dts || v.idr)
                            && ((splitDuration > 0 && v.pts - segmentOrigin >= splitDuration) || (splitBytes > 0 && length >= splitBytes)))
    {
      roll, length := false, 0;
      if failure.None? && segmentHasVideo && SafeKey(v, hevc) && v.pts > segmentOrigin {
        if splitBytes != 0 {
          var success := Ask();
          if !success { clean := false; return Failed(External), false, 0; }
          length := *;
        }
        roll := (splitDuration != 0 && v.pts - segmentOrigin >= splitDuration) || (splitBytes != 0 && length >= splitBytes);
      }
      st := Ok;
    }

    /** Whether no queued picture is presented before the candidate key. */
    method NoLeadingPicture(v: Packet) returns (safe: bool)
      ensures TimedVideo(videoPackets) ==> (safe <==> forall i :: 0 <= i < |videoPackets| ==> videoPackets[i].pts >= v.pts)
    {
      var i := 0;
      while i < |videoPackets|
        invariant 0 <= i <= |videoPackets|
        invariant forall j :: 0 <= j < i ==> videoPackets[j].pts >= v.pts
      {
        if videoPackets[i].pts < v.pts { return false; }
        if videoPackets[i].dts >= v.pts { return true; }
        i := i + 1;
      }
      return true;
    }

    method PopAudio() returns (p: Packet)
      requires Accounted() && audioPackets != []
      modifies `audioPackets, `queuedBytes
      ensures Accounted() && p == old(audioPackets)[0] && audioPackets == old(audioPackets)[1..]
    {
      p := audioPackets[0];
      audioPackets, queuedBytes := audioPackets[1..], queuedBytes - p.size;
    }

    method PopVideo() returns (p: Packet)
      requires Accounted() && videoPackets != []
      modifies `videoPackets, `queuedBytes
      ensures Accounted() && p == old(videoPackets)[0] && videoPackets == old(videoPackets)[1..]
    {
      p := videoPackets[0];
      videoPackets, queuedBytes := videoPackets[1..], queuedBytes - p.size;
    }

    /** The head of a queue moves to the open part. */
    method MuxAudio() returns (st: Status)
      requires Accounted() && audioPackets != []
      modifies `written, `clean, `refused, `audioPackets, `queuedBytes
      ensures Accounted() && audioPackets == old(audioPackets)[1..]
      ensures clean == (old(clean) && st.Ok?) && !st.Incomplete? && (old(refused) ==> refused)
      ensures st.Failed? ==> Outside(st.error)
      ensures st.Ok? ==> Contents() == TakeAudio(old(Contents()))
    {
      hide Accounted;
      var p := PopAudio();
      st := MuxRaw(p);
    }

    method MuxVideo() returns (st: Status)
      requires Accounted() && videoPackets != []
      modifies `written, `clean, `refused, `videoPackets, `queuedBytes
      ensures Accounted() && videoPackets == old(videoPackets)[1..]
      ensures clean == (old(clean) && st.Ok?) && !st.Incomplete? && (old(refused) ==> refused)
      ensures st.Failed? ==> Outside(st.error)
      ensures st.Ok? ==> written == old(written) + [old(videoPackets)[0].(pts := old(videoPackets)[0].pts - segmentOrigin,
                                                                          dts := old(videoPackets)[0].dts - segmentOrigin)]
      ensures st.Ok? ==> Contents() == TakeVideo(old(Contents()))
    {
      hide Accounted;
      var p := PopVideo();
      st := MuxRaw(p);
    }

    method WriteAudioHead(boundary: int) returns (st: Status)
      requires AtBoundary(boundary) && audioPackets != [] && audioPackets[0].pts < boundary
      modifies `written, `clean, `refused, `audioPackets, `queuedBytes
      ensures AtBoundary(boundary)
      ensures clean == (old(clean) && st.Ok?) && !st.Incomplete? && (old(refused) ==> refused)
      ensures st.Failed? ==> Outside(st.error)
      ensures audioPackets == old(audioPackets)[1..]
      ensures clean ==> Of(Contents().current, true) == old(Of(Contents().current, true))
    {
      hide Sound, Calm, Of, Accounted, TakeAudio;
      ghost var before := Contents();
      st := MuxAudio();
      if clean {
        TakeAudioSound(before, drained, Minimum(), hevc, boundary);
      }
    }

    lemma EnterBoundary(boundary: int)
      requires Writing() && split && videoPackets != []
      requires boundary == videoPackets[0].dts || boundary == videoPackets[0].pts
      ensures AtBoundary(boundary)
      ensures clean && Timed(Contents()) && closed != [] ==> Of(Contents().current, true) != []
    {
      hide Sound, Bytes, Calm;
      if clean { CalmAtHead(Contents(), drained, Minimum(), hevc, boundary); }
    }

    /** Writes the queued audio that is presented before the boundary. */
    method FlushAudio(boundary: int) returns (st: Status)
      requires AtBoundary(boundary)
      modifies `written, `clean, `refused, `audioPackets, `queuedBytes
      ensures AtBoundary(boundary)
      ensures clean == (old(clean) && st.Ok?) && !st.Incomplete? && (old(refused) ==> refused)
      ensures st.Failed? ==> Outside(st.error)
      ensures |audioPackets| <= |old(audioPackets)| && audioPackets == old(audioPackets)[|old(audioPackets)| - |audioPackets|..]
      ensures forall i :: 0 <= i < |old(audioPackets)| - |audioPackets| ==> old(audioPackets)[i].pts < boundary
      ensures st.Ok? ==> audioPackets == [] || audioPackets[0].pts >= boundary
      ensures clean ==> Of(Contents().current, true) == old(Of(Contents().current, true))
    {
      hide AtBoundary, Of;
      while audioPackets != [] && audioPackets[0].pts < boundary
        invariant AtBoundary(boundary)
        invariant clean == old(clean) && (old(refused) ==> refused)
        invariant |audioPackets| <= |old(audioPackets)| && audioPackets == old(audioPackets)[|old(audioPackets)| - |audioPackets|..]
        invariant forall i :: 0 <= i < |old(audioPackets)| - |audioPackets| ==> old(audioPackets)[i].pts < boundary
        invariant clean ==> Of(Contents().current, true) == old(Of(Contents().current, true))
        decreases |audioPackets|
      {
        st := WriteAudioHead(boundary);
        if st.Failed? { return; }
      }
      return Ok;
    }

    /** Creates the next file, then finishes the current one. */
    method SealFile() returns (st: Status)
      modifies `trailerWritten, `clean, `refused, `format, `videoCodecHeader
      ensures clean == (old(clean) && st.Ok?) && !st.Incomplete? && (old(refused) ==> refused)
      ensures st.Failed? ==> Outside(st.error)
      ensures st.Ok? ==> trailerWritten && !format && (videoExtra ==> videoCodecHeader)
      ensures st.Failed? ==> format == old(format)
    {
      var created := Ask();
      if !created { clean := false; return Failed(External); }
      trailerWritten := true;
      var sealed := Ask();
      if !format || !sealed { clean, refused := false, true; return Failed(External); }
      if videoExtra { videoCodecHeader := true; }
      format := false;
      return Ok;
    }

    /** The finished part is kept and an empty one with the given origin takes its place. */
    method BeginPart(origin: int)
      modifies `closed, `part, `written, `segmentOrigin, `segmentHasVideo, `header, `trailerWritten
      ensures Contents() == Roll(old(Contents()), origin) && part == old(part) + 1
      ensures !segmentHasVideo && !header && !trailerWritten
    {
      closed, part := closed + [Part(segmentOrigin, written)], part + 1;
      written, segmentOrigin, segmentHasVideo, header, trailerWritten := [], origin, false, false, false;
    }

    /** From one file to the next, which has no streams yet. */
    method SwitchFile(origin: int) returns (st: Status)
      requires Accounted()
      modifies `trailerWritten, `clean, `refused, `format, `videoCodecHeader
      modifies `closed, `part, `written, `segmentOrigin, `segmentHasVideo, `header
      ensures Accounted()
      ensures clean == (old(clean) && st.Ok?) && !st.Incomplete? && (old(refused) ==> refused)
      ensures st.Failed? ==> Outside(st.error)
      ensures st.Ok? ==> Contents() == Roll(old(Contents()), origin) && !segmentHasVideo && !header && !trailerWritten
      ensures st.Ok? ==> !format && (videoExtra ==> videoCodecHeader)
    {
      hide Bytes;
      st := SealFile();
      if st.Ok? { BeginPart(origin); }
    }

    lemma HeaderKnown()
      requires Accounted() && header
      ensures (hasVideo ==> videoSeen && videoExtra) && (hasAudio ==> audioSeen)
    {
      hide Bytes;
    }

    /** Writes the stream headers, once every stream has been seen. */
    method WriteHeader() returns (st: Status)
      requires Accounted() && !header
      modifies `header, `clean, `refused
      ensures clean == (old(clean) && !st.Failed?) && (old(refused) ==> refused)
      ensures st.Failed? ==> Outside(st.error)
      ensures st.Ok? <==> header
      ensures Accounted()
      ensures st.Incomplete? <==> !(format && (hasVideo ==> videoSeen && videoExtra) && (hasAudio ==> audioSeen && audioExtra))
    {
      if !format { return Incomplete; }
      if (hasVideo && !(videoSeen && videoExtra)) || (hasAudio && !(audioSeen && audioExtra)) { return Incomplete; }
      var success := Ask();
      if !success { clean := false; return Failed(External); }
      header := true;
      return Ok;
    }

    /** The streams of the next file, whose codec headers are already known, and its header.
        No sample waits for this header, because the previous one had been written. */
    method OpenFile() returns (st: Status)
      requires Accounted() && pending == [] && !format
      requires clean ==> (hasVideo ==> videoSeen && videoCodecHeader) && (hasAudio ==> audioSeen)
      modifies `format, `videoExtra, `audioExtra, `header, `clean, `refused
      ensures Accounted()
      ensures clean == (old(clean) && !st.Failed?) && (clean ==> header && st.Ok?) && (old(refused) ==> refused)
      ensures st.Failed? ==> Outside(st.error)
    {
      st := Initialize();
      if st.Failed? { return; }
      st := WriteHeader();
    }

    /** Moves on to the next file; the encoders and the queues are not touched. */
    method RollSegment(origin: int) returns (st: Status)
      requires Accounted() && pending == [] && split
      requires clean ==> Consistent() && header && !trailerWritten
      requires videoPackets != [] && origin == videoPackets[0].pts
      requires clean ==> Rollable(Contents(), drained, Minimum(), hevc)
      modifies `trailerWritten, `clean, `refused, `format, `videoExtra, `audioExtra, `videoCodecHeader
      modifies `closed, `part, `written, `segmentOrigin, `segmentHasVideo, `header
      ensures Accounted() && pending == []
      ensures clean == (old(clean) && !st.Failed?) && (old(refused) ==> refused)
      ensures st.Failed? ==> Outside(st.error)
      ensures clean ==> Consistent() && header && !trailerWritten && st.Ok?
      ensures clean ==> Contents() == Roll(old(Contents()), origin)
      ensures clean ==> Of(Contents().current, true) == [] && Of(Contents().current, false) == []
    {
      hide Sound, Of, Rollable, Accounted, Roll;
      ghost var before := Contents();
      if clean {
        HeaderKnown();
        RollSound(before, drained, Minimum(), hevc);
      }
      st := SwitchFile(origin);
      if st.Failed? { return; }
      st := OpenFile();
    }

    /** The picture at the head of the queue and what the rules decided about it. */
    ghost predicate Decided(finish: bool, roll: bool, boundary: int)
      reads this
      requires videoPackets != []
    {
      var v := videoPackets[0];
      && (!finish ==> audioPackets != [])
      && (audioPackets != [] && (!finish || roll) ==> audioPackets[|audioPackets| - 1].pts >= boundary)
      && (if roll then
            && boundary == v.pts && audioPackets != [] && segmentHasVideo && SafeKey(v, hevc)
            && v.pts > segmentOrigin && v.pts >= segmentOrigin + Minimum()
            && (clean && Timed(Contents()) ==>
                  && (forall i :: 0 <= i < |videoPackets| ==> videoPackets[i].pts >= v.pts)
                  && (drained || videoPackets[|videoPackets| - 1].dts >= v.pts))
          else
            boundary == v.dts || (finish && boundary == v.pts && (audioPackets == [] || audioPackets[|audioPackets| - 1].pts < boundary)))
    }

    /** The head of the queue waits for later packets: its own reorder window, or the audio. */
    static ghost predicate HoldsBack(video: seq<Packet>, audio: seq<Packet>)
      requires video != []
    {
      || video[|video| - 1].dts < video[0].pts
      || audio == []
      || audio[|audio| - 1].pts < video[0].dts
      || audio[|audio| - 1].pts < video[0].pts
    }

    /** Nothing can be done about the head of the queue yet. */
    ghost predicate Waits(length: nat)
      reads `videoPackets, `audioPackets, `failure, `segmentHasVideo, `segmentOrigin
      requires videoPackets != []
    {
      var v := videoPackets[0];
      var due := && failure.None? && segmentHasVideo && SafeKey(v, hevc) && v.pts > segmentOrigin
                 && ((splitDuration > 0 && v.pts - segmentOrigin >= splitDuration) || (splitBytes > 0 && length >= splitBytes));
      && HoldsBack(videoPackets, audioPackets)
      && (TimedVideo(videoPackets) ==>
            || (due && videoPackets[|videoPackets| - 1].dts < v.pts)
            || audioPackets == []
            || audioPackets[|audioPackets| - 1].pts
               < if due && forall i :: 0 <= i < |videoPackets| ==> videoPackets[i].pts >= v.pts then v.pts else v.dts)
    }

    /** What happens to the head of the queue: it waits, is written, or opens a part, depending on
        the time and on the length the file had when it was asked. */
    method Decide(finish: bool) returns (st: Status, wait: bool, roll: bool, boundary: int, ghost length: nat)
      requires Writing() && split && finish == drained && videoPackets != []
      modifies `clean, `refused
      ensures clean == (old(clean) && st.Ok?) && !st.Incomplete? && Writing() && (old(refused) ==> refused)
      ensures st.Failed? ==> Outside(st.error)
      ensures wait ==> st.Ok? && !finish && Waits(length)
      ensures st.Ok? && !wait ==> Decided(finish, roll, boundary)
      ensures st.Ok? && TimedVideo(videoPackets) ==>
                var v := videoPackets[0];
                var due := && failure.None? && segmentHasVideo && v.key && (hevc ==> v.pts == v.dts || v.idr) && v.pts > segmentOrigin
                           && ((splitDuration > 0 && v.pts - segmentOrigin >= splitDuration) || (splitBytes > 0 && length >= splitBytes));
                var first := forall i :: 0 <= i < |videoPackets| ==> videoPackets[i].pts >= v.pts;
                var heard := audioPackets != [] && audioPackets[|audioPackets| - 1].pts >= if due && first then v.pts else v.dts;
                && (wait <==> !finish && ((due && videoPackets[|videoPackets| - 1].dts < v.pts) || !heard))
                && (!wait ==> (roll <==> due && first && heard))
    {
      hide Accounted, Healthy, Decided, HoldsBack, Chosen, TimedVideo;
      st, wait, roll, boundary, length := Weigh(finish);
      if st.Ok? && !wait { Weighed(finish, roll, boundary); }
    }

    method Weigh(finish: bool) returns (st: Status, wait: bool, roll: bool, boundary: int, ghost length: nat)
      requires videoPackets != []
      modifies `clean, `refused
      ensures clean == (old(clean) && st.Ok?) && !st.Incomplete? && (old(refused) ==> refused)
      ensures st.Failed? ==> Outside(st.error)
      ensures wait ==> st.Ok? && !finish && HoldsBack(videoPackets, audioPackets)
      ensures st.Ok? && !wait ==> Chosen(finish, roll, boundary)
      ensures st.Ok? && TimedVideo(videoPackets) ==>
                var v := videoPackets[0];
                var due := && failure.None? && segmentHasVideo && v.key && (hevc ==> v.pts == v.dts || v.idr) && v.pts > segmentOrigin
                           && ((splitDuration > 0 && v.pts - segmentOrigin >= splitDuration) || (splitBytes > 0 && length >= splitBytes));
                var first := forall i :: 0 <= i < |videoPackets| ==> videoPackets[i].pts >= v.pts;
                var heard := audioPackets != [] && audioPackets[|audioPackets| - 1].pts >= if due && first then v.pts else v.dts;
                && (wait <==> !finish && ((due && videoPackets[|videoPackets| - 1].dts < v.pts) || !heard))
                && (!wait ==> (roll <==> due && first && heard))
    {
      hide TimedVideo;
      var v := videoPackets[0];
      wait, boundary := false, 0;
      var size;
      st, roll, size := WantsRoll(v);
      length := size;
      if st.Failed? { return; }
      Unreordered();
      if roll && v.pts > v.dts {
        if !finish && videoPackets[|videoPackets| - 1].dts < v.pts { wait := true; return; }
        roll := NoLeadingPicture(v);
      }
      boundary := if roll then v.pts else v.dts;
      if !finish && (audioPackets == [] || audioPackets[|audioPackets| - 1].pts < boundary) { wait := true; return; }
      if finish && (audioPackets == [] || audioPackets[|audioPackets| - 1].pts < boundary) { roll := false; }
    }

    /** A picture that is not reordered is presented before everything queued behind it. */
    lemma Unreordered()
      requires videoPackets != []
      ensures TimedVideo(videoPackets) && videoPackets[0].pts <= videoPackets[0].dts ==>
                && (forall i :: 0 <= i < |videoPackets| ==> videoPackets[i].pts >= videoPackets[0].pts)
                && videoPackets[|videoPackets| - 1].dts >= videoPackets[0].pts
    {
    }

    /** What the rules looked at. */
    ghost predicate Chosen(finish: bool, roll: bool, boundary: int)
      reads `videoPackets, `audioPackets, `segmentHasVideo, `segmentOrigin
      requires videoPackets != []
    {
      var v := videoPackets[0];
      && (!finish ==> audioPackets != [])
      && (audioPackets != [] && (!finish || roll) ==> audioPackets[|audioPackets| - 1].pts >= boundary)
      && (if roll then
            && boundary == v.pts && audioPackets != [] && segmentHasVideo && SafeKey(v, hevc)
            && v.pts > segmentOrigin && v.pts >= segmentOrigin + Minimum()
            && (v.pts > v.dts ==>
                  && (finish || videoPackets[|videoPackets| - 1].dts >= v.pts)
                  && (TimedVideo(videoPackets) ==> forall i :: 0 <= i < |videoPackets| ==> videoPackets[i].pts >= v.pts))
          else
            boundary == v.dts || (finish && boundary == v.pts && (audioPackets == [] || audioPackets[|audioPackets| - 1].pts < boundary)))
    }

    lemma Weighed(finish: bool, roll: bool, boundary: int)
      requires Writing() && finish == drained && videoPackets != [] && Chosen(finish, roll, boundary)
      ensures Decided(finish, roll, boundary)
    {
      hide Sound, Of, Bytes, SafeKey;
      if clean && roll && Timed(Contents()) { HeadOfTimed(); }
    }

    lemma HeadOfTimed()
      requires clean && Consistent() && Timed(Contents()) && videoPackets != []
      ensures TimedVideo(videoPackets)
      ensures videoPackets[0].pts <= videoPackets[0].dts ==>
                && (forall i :: 0 <= i < |videoPackets| ==> videoPackets[i].pts >= videoPackets[0].pts)
                && videoPackets[|videoPackets| - 1].dts >= videoPackets[0].pts
    {
      hide Partitioned, Settled, Of, Muxed, SafeKey;
      QueuesTimed(Contents());
      if videoPackets[0].pts <= videoPackets[0].dts { UnorderedKey(Contents()); }
    }

    method WriteVideoHead() returns (st: Status)
      requires Accounted() && pending == [] && split && videoPackets != []
      requires clean ==> Consistent() && header && !trailerWritten && Calm(Contents(), drained, videoPackets[0].dts)
      requires clean && Timed(Contents()) && Of(Contents().current, true) == [] && closed != [] ==>
                 videoPackets[0].pts == segmentOrigin && SafeKey(videoPackets[0], hevc)
      modifies `written, `clean, `refused, `videoPackets, `queuedBytes, `segmentHasVideo
      ensures Writing()
      ensures clean == (old(clean) && st.Ok?) && !st.Incomplete? && (old(refused) ==> refused)
      ensures st.Failed? ==> Outside(st.error)
      ensures st.Ok? ==> written == old(written) + [old(videoPackets)[0].(pts := old(videoPackets)[0].pts - segmentOrigin,
                                                                          dts := old(videoPackets)[0].dts - segmentOrigin)]
      ensures videoPackets == old(videoPackets)[1..]
    {
      hide Sound, Rested, Of, Calm, SafeKey, Timed, Accounted, TakeVideo;
      ghost var before := Contents();
      st := MuxVideo();
      if clean {
        TakeVideoSound(before, drained, Minimum(), hevc);
      }
      if st.Ok? { segmentHasVideo := true; }
    }

    /** Moves to a new part when the rules say so, once the audio before the cut is written. */
    method CutAt(finish: bool, roll: bool, boundary: int) returns (st: Status)
      requires AtBoundary(boundary) && videoPackets != [] && finish == drained && Decided(finish, roll, boundary)
      requires audioPackets == [] || audioPackets[0].pts >= boundary
      modifies `trailerWritten, `clean, `refused, `format, `videoExtra, `audioExtra, `videoCodecHeader
      modifies `closed, `part, `written, `segmentOrigin, `segmentHasVideo, `header
      ensures Accounted() && pending == []
      ensures clean == (old(clean) && !st.Failed?) && (old(refused) ==> refused)
      ensures st.Failed? ==> Outside(st.error)
      ensures clean ==> Consistent() && header && !trailerWritten && Calm(Contents(), drained, videoPackets[0].dts)
      ensures clean && Timed(Contents()) && Of(Contents().current, true) == [] && closed != [] ==>
                 old(Of(Contents().current, true) == []) || (videoPackets[0].pts == segmentOrigin && SafeKey(videoPackets[0], hevc))
      ensures clean ==> closed == if roll then old(closed) + [Part(old(segmentOrigin), old(written))] else old(closed)
      ensures clean ==> segmentOrigin == (if roll then videoPackets[0].pts else old(segmentOrigin)) && (roll ==> written == [])
    {
      hide Conserved, Of, Bytes, SafeKey, Partitioned, Settled;
      if roll {
        assert clean ==> Rollable(Contents(), drained, Minimum(), hevc);
        st := RollSegment(videoPackets[0].pts);
        if clean { CalmAfterRoll(Contents(), drained, videoPackets[0].dts); }
      } else {
        if clean { CalmAfterRelease(Contents(), drained, boundary); }
        st := Ok;
      }
    }

    lemma Bounded(finish: bool, roll: bool, boundary: int)
      requires videoPackets != [] && Decided(finish, roll, boundary)
      ensures boundary == videoPackets[0].dts || boundary == videoPackets[0].pts
      ensures roll ==> SafeKey(videoPackets[0], hevc)
    {
      hide SafeKey;
    }

    /** Flushing the audio before the boundary leaves the decision about the head as it is. */
    method FlushDecided(finish: bool, roll: bool, boundary: int) returns (st: Status)
      requires AtBoundary(boundary) && videoPackets != [] && Decided(finish, roll, boundary)
      modifies `written, `clean, `refused, `audioPackets, `queuedBytes
      ensures AtBoundary(boundary)
      ensures clean == (old(clean) && st.Ok?) && !st.Incomplete? && (old(refused) ==> refused)
      ensures st.Failed? ==> Outside(st.error)
      ensures st.Ok? ==> Decided(finish, roll, boundary) && (audioPackets == [] || audioPackets[0].pts >= boundary)
      ensures clean ==> Of(Contents().current, true) == old(Of(Contents().current, true))
    {
      hide AtBoundary, Of, SafeKey;
      st := FlushAudio(boundary);
    }

    method FlushThenCut(finish: bool, roll: bool, boundary: int) returns (st: Status)
      requires Writing() && split && finish == drained && videoPackets != [] && Decided(finish, roll, boundary)
      modifies `trailerWritten, `clean, `refused, `format, `videoExtra, `audioExtra, `videoCodecHeader
      modifies `closed, `part, `written, `segmentOrigin, `segmentHasVideo, `header
      modifies `audioPackets, `queuedBytes
      ensures Accounted() && pending == []
      ensures clean == (old(clean) && !st.Failed?) && (old(refused) ==> refused)
      ensures st.Failed? ==> Outside(st.error)
      ensures clean ==> Consistent() && header && !trailerWritten && Calm(Contents(), drained, videoPackets[0].dts)
      ensures clean && Timed(Contents()) && Of(Contents().current, true) == [] && closed != [] ==>
                 videoPackets[0].pts == segmentOrigin && SafeKey(videoPackets[0], hevc)
      ensures clean ==> |closed| == |old(closed)| + (if roll then 1 else 0) && |old(closed)| <= |closed| && closed[..|old(closed)|] == old(closed)
      ensures clean ==> segmentOrigin == (if roll then videoPackets[0].pts else old(segmentOrigin)) && (roll ==> written == [])
    {
      hide Writing, Of, SafeKey, TimedVideo, TimedAudio, Accounted, Consistent, Calm, Decided;
      Bounded(finish, roll, boundary);
      EnterBoundary(boundary);
      st := FlushDecided(finish, roll, boundary);
      if st.Failed? { return; }
      st := CutAt(finish, roll, boundary);
    }

    /** One turn of the drain: the picture at the head of the queue waits, or is written after
        the audio before it and, when the rules say so, as the first picture of a new part. */
    method DrainHead(finish: bool) returns (st: Status, wait: bool, ghost length: nat)
      requires Writing() && split && finish == drained && videoPackets != []
      modifies `trailerWritten, `clean, `refused, `format, `videoExtra, `audioExtra, `videoCodecHeader
      modifies `closed, `part, `written, `segmentOrigin, `segmentHasVideo, `header
      modifies `videoPackets, `audioPackets, `queuedBytes
      ensures Writing()
      ensures clean == (old(clean) && !st.Failed?) && (old(refused) ==> refused)
      ensures st.Failed? ==> Outside(st.error)
      ensures wait ==> st.Ok? && videoPackets == old(videoPackets) && !finish && Waits(length)
      ensures !wait && !st.Failed? ==> videoPackets == old(videoPackets)[1..]
      ensures wait ==> closed == old(closed) && written == old(written) && audioPackets == old(audioPackets)
      ensures old(clean) && !wait && !st.Failed? ==>
                var v := old(videoPackets)[0];
                written != [] && written[|written| - 1] == v.(pts := v.pts - segmentOrigin, dts := v.dts - segmentOrigin)
      ensures old(clean) && !wait && !st.Failed? && TimedVideo(old(videoPackets)) ==>
                var v, audio := old(videoPackets)[0], old(audioPackets);
                var cut := && failure.None? && old(segmentHasVideo) && v.key && (hevc ==> v.pts == v.dts || v.idr)
                           && v.pts > old(segmentOrigin)
                           && ((splitDuration > 0 && v.pts - old(segmentOrigin) >= splitDuration) || (splitBytes > 0 && length >= splitBytes))
                           && (forall i :: 0 <= i < |old(videoPackets)| ==> old(videoPackets)[i].pts >= v.pts)
                           && audio != [] && audio[|audio| - 1].pts >= v.pts;
                && |closed| == |old(closed)| + (if cut then 1 else 0)
                && segmentOrigin == (if cut then v.pts else old(segmentOrigin)) && (cut ==> |written| == 1)
    {
      hide Healthy, Consistent, Accounted, Decided, Calm, Of, SafeKey, Timed, TimedVideo, HoldsBack, Waits;
      var roll, boundary;
      st, wait, roll, boundary, length := Decide(finish);
      if st.Failed? || wait { return; }
      st := WriteHead(finish, roll, boundary);
    }

    /** The audio before the head of the queue, the cut if there is one, and the head itself. */
    method WriteHead(finish: bool, roll: bool, boundary: int) returns (st: Status)
      requires Writing() && split && finish == drained && videoPackets != [] && Decided(finish, roll, boundary)
      modifies `trailerWritten, `clean, `refused, `format, `videoExtra, `audioExtra, `videoCodecHeader
      modifies `closed, `part, `written, `segmentOrigin, `segmentHasVideo, `header
      modifies `videoPackets, `audioPackets, `queuedBytes
      ensures Writing()
      ensures clean == (old(clean) && !st.Failed?) && (old(refused) ==> refused)
      ensures st.Failed? ==> Outside(st.error)
      ensures !st.Failed? ==> videoPackets == old(videoPackets)[1..]
      ensures clean ==>
                var v := old(videoPackets)[0];
                && written != [] && written[|written| - 1] == v.(pts := v.pts - segmentOrigin, dts := v.dts - segmentOrigin)
                && |closed| == |old(closed)| + (if roll then 1 else 0)
                && segmentOrigin == (if roll then v.pts else old(segmentOrigin)) && (roll ==> |written| == 1)
    {
      hide Healthy, Consistent, Accounted, Decided, Calm, Of, SafeKey, Timed;
      st := FlushThenCut(finish, roll, boundary);
      if st.Failed? { return; }
      st := WriteVideoHead();
    }

    method WriteAudioTail() returns (st: Status)
      requires Accounted() && pending == [] && split && drained && audioPackets != []
      requires clean ==> Consistent() && header && !trailerWritten
      modifies `written, `clean, `refused, `audioPackets, `queuedBytes
      ensures Accounted()
      ensures clean == (old(clean) && st.Ok?) && !st.Incomplete? && (old(refused) ==> refused)
      ensures st.Failed? ==> Outside(st.error)
      ensures clean ==> Consistent() && Of(Contents().current, true) == old(Of(Contents().current, true))
      ensures audioPackets == old(audioPackets)[1..]
    {
      hide Sound, Of, Accounted, TakeAudio;
      ghost var before := Contents();
      st := MuxAudio();
      if clean {
        TakeLastAudioSound(before, Minimum(), hevc);
      }
    }

    /** Audio that outlasts the pictures ends the last part. */
    method FlushRest() returns (st: Status)
      requires Writing() && split && drained && videoPackets == []
      modifies `written, `clean, `refused, `audioPackets, `queuedBytes
      ensures Writing()
      ensures clean == (old(clean) && st.Ok?) && !st.Incomplete? && (old(refused) ==> refused)
      ensures st.Failed? ==> Outside(st.error)
      ensures st.Ok? ==> audioPackets == []
    {
      hide Sound, Of, Bytes, SafeKey, Conserved, Partitioned;
      while audioPackets != []
        invariant Accounted() && clean == old(clean) && (old(refused) ==> refused)
        invariant clean ==> Consistent() && header && !trailerWritten
        invariant clean ==> Of(Contents().current, true) == old(Of(Contents().current, true))
        decreases |audioPackets|
      {
        st := WriteAudioTail();
        if st.Failed? { return; }
      }
      return Ok;
    }

    /** Decides about every picture that does not have to wait; when finishing, about all. */
    method DrainSegments(finish: bool) returns (st: Status, ghost length: nat)
      requires Writing() && split && finish == drained
      modifies `trailerWritten, `clean, `refused, `format, `videoExtra, `audioExtra, `videoCodecHeader
      modifies `closed, `part, `written, `segmentOrigin, `segmentHasVideo, `header
      modifies `videoPackets, `audioPackets, `queuedBytes
      ensures Writing()
      ensures clean == (old(clean) && st.Ok?) && !st.Incomplete? && (old(refused) ==> refused)
      ensures st.Failed? ==> Outside(st.error)
      ensures st.Ok? && finish ==> videoPackets == [] && audioPackets == []
      ensures st.Ok? && !finish ==> videoPackets == [] || Waits(length)
    {
      hide *;
      length := 0;
      while videoPackets != []
        invariant Writing() && finish == drained
        invariant clean == old(clean) && (old(refused) ==> refused)
        decreases |videoPackets|
      {
        var wait;
        st, wait, length := DrainHead(finish);
        if st.Failed? { return; }
        if wait { break; }
      }
      if finish {
        st := FlushRest();
        if st.Failed? { return; }
      }
      st := Ok;
    }

    // ---- the stages before the drain ----

    method WriteThrough(p: Packet) returns (st: Status)
      requires Writing() && !drained && !split
      modifies `written, `clean, `refused, `videoQueued, `audioQueued
      ensures Writing()
      ensures clean == (old(clean) && st.Ok?) && !st.Incomplete? && (old(refused) ==> refused)
      ensures st.Failed? ==> Outside(st.error)
      ensures clean && p.video ==> videoQueued == old(videoQueued) + [p] && audioQueued == old(audioQueued)
      ensures clean && !p.video ==> audioQueued == old(audioQueued) + [p] && videoQueued == old(videoQueued)
    {
      hide Sound, Of, Accounted, Timed;
      ghost var before := Contents();
      st := MuxRaw(p);
      if p.video { videoQueued := videoQueued + [p]; } else { audioQueued := audioQueued + [p]; }
      if clean { PassedThrough(before, p); }
    }

    /** With empty queues, a packet that is written at once has gone through its queue. */
    lemma PassedThrough(a: Archive, p: Packet)
      requires Sound(a, false, false, Minimum(), hevc)
      requires Contents() == (if p.video then a.(videoIn := a.videoIn + [p]) else a.(audioIn := a.audioIn + [p]))
                             .(current := Part(a.current.origin, a.current.written + [Shift(p, a.current.origin)]))
      ensures Sound(Contents(), false, false, Minimum(), hevc)
    {
      hide Of, Muxed;
      assert QueueVideo(a, p).video[1..] == [] == QueueAudio(a, p).audio[1..];
      PassThrough(a, p, Minimum(), hevc);
    }

    method Enqueue(p: Packet)
      requires Writing() && !drained && split
      requires queuedBytes + p.size <= MAX_PENDING_BYTES && |videoPackets| + |audioPackets| < MAX_PENDING_PACKETS
      modifies `videoPackets, `audioPackets, `queuedBytes, `videoQueued, `audioQueued
      ensures Writing()
      ensures p.video ==> videoQueued == old(videoQueued) + [p] && audioQueued == old(audioQueued)
      ensures !p.video ==> audioQueued == old(audioQueued) + [p] && videoQueued == old(videoQueued)
      ensures p.video ==> videoPackets == old(videoPackets) + [p] && audioPackets == old(audioPackets)
      ensures !p.video ==> audioPackets == old(audioPackets) + [p] && videoPackets == old(videoPackets)
    {
      hide Sound, Of, Rested, Accounted;
      if clean { QueueSound(Contents(), p, Minimum(), hevc); }
      PushQueue(p);
      if p.video {
        videoQueued := videoQueued + [p];
        assert Contents() == QueueVideo(old(Contents()), p);
      } else {
        audioQueued := audioQueued + [p];
        assert Contents() == QueueAudio(old(Contents()), p);
      }
    }

    method PushQueue(p: Packet)
      requires Accounted()
      requires queuedBytes + p.size <= MAX_PENDING_BYTES && |videoPackets| + |audioPackets| < MAX_PENDING_PACKETS
      modifies `videoPackets, `audioPackets, `queuedBytes
      ensures Accounted()
      ensures p.video ==> videoPackets == old(videoPackets) + [p] && audioPackets == old(audioPackets)
      ensures !p.video ==> audioPackets == old(audioPackets) + [p] && videoPackets == old(videoPackets)
    {
      hide Bytes;
      queuedBytes := queuedBytes + p.size;
      if p.video {
        BytesAppend(videoPackets, p);
        videoPackets := videoPackets + [p];
      } else {
        BytesAppend(audioPackets, p);
        audioPackets := audioPackets + [p];
      }
    }

    /** No room for another packet of this size in the queues. */
    predicate QueuesFull(size: nat)
      reads `queuedBytes, `videoPackets, `audioPackets
    {
      queuedBytes + size > MAX_PENDING_BYTES || |videoPackets| + |audioPackets| >= MAX_PENDING_PACKETS
    }

    /** The decode times of the held picture and of this one give no valid duration. */
    ghost predicate NoDuration(p: Packet)
      reads `pendingVideo
    {
      p.video && pendingVideo.Some? && !(0 < p.dts - pendingVideo.value.dts <= INT64_MAX)
    }

    /** The packet that this one sends on does not fit the queues: the held picture or itself. */
    ghost predicate NoRoom(p: Packet)
      reads `pendingVideo, `queuedBytes, `videoPackets, `audioPackets
    {
      split && if p.video then pendingVideo.Some? && QueuesFull(pendingVideo.value.size) else QueuesFull(p.size)
    }

    method MuxPacket(p: Packet) returns (st: Status, ghost length: nat)
      requires Writing() && !drained
      modifies `trailerWritten, `clean, `refused, `format, `videoExtra, `audioExtra, `videoCodecHeader
      modifies `closed, `part, `written, `segmentOrigin, `segmentHasVideo, `header
      modifies `videoPackets, `audioPackets, `queuedBytes, `videoQueued, `audioQueued
      ensures Writing()
      ensures clean == (old(clean) && st.Ok?) && !st.Incomplete? && (old(refused) ==> refused)
      ensures st == Failed(BufferOverflow) <==> split && old(QueuesFull(p.size))
      ensures st.Failed? ==> Outside(st.error) || st.error == BufferOverflow
      ensures clean && p.video ==> videoQueued == old(videoQueued) + [p] && audioQueued == old(audioQueued)
      ensures clean && !p.video ==> audioQueued == old(audioQueued) + [p] && videoQueued == old(videoQueued)
      ensures st.Ok? && split && videoPackets != [] && TimedVideo(videoPackets) ==>
                var v := videoPackets[0];
                var due := && failure.None? && segmentHasVideo && v.key && (hevc ==> v.pts == v.dts || v.idr) && v.pts > segmentOrigin
                           && ((splitDuration > 0 && v.pts - segmentOrigin >= splitDuration) || (splitBytes > 0 && length >= splitBytes));
                var first := forall i :: 0 <= i < |videoPackets| ==> videoPackets[i].pts >= v.pts;
                || (due && videoPackets[|videoPackets| - 1].dts < v.pts)
                || audioPackets == [] || audioPackets[|audioPackets| - 1].pts < if due && first then v.pts else v.dts
    {
      hide Writing, TimedVideo;
      length := 0;
      if !split {
        st := WriteThrough(p);
        return;
      }
      if QueuesFull(p.size) {
        Fail();
        return Failed(BufferOverflow), 0;
      }
      Enqueue(p);
      st, length := DrainSegments(false);
    }

    /** A refusal of the sink itself; from now on only the accounting counts. */
    method Fail()
      requires Writing()
      modifies `clean
      ensures Writing() && !clean
    {
      clean := false;
    }

    /** Passes the held video packet on, now that the next decode time is known. */
    method ReleaseHeld(dts: int) returns (st: Status)
      requires Writing() && !drained && (clean ==> Lookahead()) && pendingVideo.Some?
      requires NO_PTS <= dts <= INT64_MAX
      modifies `trailerWritten, `clean, `refused, `format, `videoExtra, `audioExtra, `videoCodecHeader
      modifies `closed, `part, `written, `segmentOrigin, `segmentHasVideo, `header
      modifies `videoPackets, `audioPackets, `queuedBytes, `videoQueued, `audioQueued
      modifies `pendingVideo
      ensures Writing() && (clean ==> pendingVideo.None?)
      ensures clean == (old(clean) && st.Ok?) && !st.Incomplete? && (old(refused) ==> refused)
      ensures st == Failed(InvalidTimestamp) ==> !(0 < dts - old(pendingVideo).value.dts <= INT64_MAX)
      ensures st == Failed(BufferOverflow) ==> split && old(QueuesFull(pendingVideo.value.size))
      ensures st.Failed? ==> Outside(st.error) || st.error == InvalidTimestamp || st.error == BufferOverflow
      ensures clean ==> audioQueued == old(audioQueued)
      ensures clean ==> videoQueued == old(videoQueued) + [old(pendingVideo).value.(duration := dts - old(pendingVideo).value.dts)]
      ensures clean ==> 0 < dts - old(pendingVideo).value.dts
      ensures old(clean) && !(0 < dts - old(pendingVideo).value.dts <= INT64_MAX) ==> st == Failed(InvalidTimestamp)
    {
      hide Sound, Rested, Of, Bytes, Retimed;
      var held := pendingVideo.value;
      if held.dts < 0 && dts > INT64_MAX + held.dts { clean := false; return Failed(InvalidTimestamp); }
      var duration := dts - held.dts;
      if duration <= 0 { clean := false; return Failed(InvalidTimestamp); }
      pendingVideo := None;
      ghost var length;
      st, length := MuxPacket(held.(duration := duration));
    }

    /** Keeps one video packet back so that its duration is the distance to the next one. */
    method WritePacket(p: Packet) returns (st: Status)
      requires Writing() && !drained && (clean ==> Lookahead())
      requires NO_PTS <= p.dts <= INT64_MAX
      modifies `trailerWritten, `clean, `refused, `format, `videoExtra, `audioExtra, `videoCodecHeader
      modifies `closed, `part, `written, `segmentOrigin, `segmentHasVideo, `header
      modifies `videoPackets, `audioPackets, `queuedBytes, `videoQueued, `audioQueued
      modifies `pendingVideo, `videoWritten, `audioWritten
      ensures Writing() && (clean ==> Lookahead())
      ensures clean == (old(clean) && st.Ok?) && !st.Incomplete? && (old(refused) ==> refused)
      ensures st == Failed(InvalidTimestamp) ==> old(NoDuration(p))
      ensures st == Failed(BufferOverflow) ==> old(NoRoom(p))
      ensures st.Failed? ==> Outside(st.error) || st.error == InvalidTimestamp || st.error == BufferOverflow
      ensures clean && p.video ==> videoWritten == old(videoWritten) + [p] && audioWritten == old(audioWritten)
      ensures clean && !p.video ==> audioWritten == old(audioWritten) + [p] && videoWritten == old(videoWritten)
      ensures old(clean) && old(NoDuration(p)) ==> st == Failed(InvalidTimestamp)
    {
      hide Writing, Lookahead, QueuesFull;
      if p.video {
        st := HoldVideo(p);
      } else {
        st := WriteAudio(p);
      }
    }

    method WriteAudio(p: Packet) returns (st: Status)
      requires Writing() && !drained && (clean ==> Lookahead()) && !p.video
      modifies `trailerWritten, `clean, `refused, `format, `videoExtra, `audioExtra, `videoCodecHeader
      modifies `closed, `part, `written, `segmentOrigin, `segmentHasVideo, `header
      modifies `videoPackets, `audioPackets, `queuedBytes, `videoQueued, `audioQueued, `audioWritten
      ensures Writing() && (clean ==> Lookahead())
      ensures clean == (old(clean) && st.Ok?) && !st.Incomplete? && (old(refused) ==> refused)
      ensures st == Failed(BufferOverflow) ==> split && old(QueuesFull(p.size))
      ensures st.Failed? ==> Outside(st.error) || st.error == BufferOverflow
      ensures clean ==> audioWritten == old(audioWritten) + [p]
    {
      hide Writing, Retimed, QueuesFull;
      ghost var length;
      st, length := MuxPacket(p);
      if st.Ok? { audioWritten := audioWritten + [p]; }
    }

    /** The picture held so far is released, and this one is held. */
    method HoldVideo(p: Packet) returns (st: Status)
      requires Writing() && !drained && (clean ==> Lookahead()) && p.video
      requires NO_PTS <= p.dts <= INT64_MAX
      modifies `trailerWritten, `clean, `refused, `format, `videoExtra, `audioExtra, `videoCodecHeader
      modifies `closed, `part, `written, `segmentOrigin, `segmentHasVideo, `header
      modifies `videoPackets, `audioPackets, `queuedBytes, `videoQueued, `audioQueued
      modifies `pendingVideo, `videoWritten
      ensures Writing() && (clean ==> Lookahead())
      ensures clean == (old(clean) && st.Ok?) && !st.Incomplete? && (old(refused) ==> refused)
      ensures st == Failed(InvalidTimestamp) ==> old(NoDuration(p))
      ensures st == Failed(BufferOverflow) ==> split && old(pendingVideo).Some? && old(QueuesFull(pendingVideo.value.size))
      ensures st.Failed? ==> Outside(st.error) || st.error == InvalidTimestamp || st.error == BufferOverflow
      ensures clean ==> videoWritten == old(videoWritten) + [p]
      ensures old(clean) && old(NoDuration(p)) ==> st == Failed(InvalidTimestamp)
    {
      hide Writing, Retimed, QueuesFull;
      ghost var was := videoWritten;
      if pendingVideo.Some? {
        if clean { LookaheadStep(videoQueued, pendingVideo.value, was, p); }
        st := ReleaseHeld(p.dts);
        if st.Failed? { return; }
      } else if clean {
        RetimedAppend([], p);
      }
      pendingVideo, videoWritten := Some(p), videoWritten + [p];
      return Ok;
    }

    /** Writes the header once every stream has been seen, then the samples that had to wait. */
    method StartHeader() returns (st: Status)
      requires Accounted() && !drained && (header ==> pending == [])
      requires clean ==> Healthy() && Lookahead() && !trailerWritten
      modifies `trailerWritten, `clean, `refused, `format, `videoExtra, `audioExtra, `videoCodecHeader
      modifies `closed, `part, `written, `segmentOrigin, `segmentHasVideo, `header
      modifies `videoPackets, `audioPackets, `queuedBytes, `videoQueued, `audioQueued
      modifies `pendingVideo, `videoWritten, `audioWritten
      modifies `pending, `pendingBytes
      ensures Accounted()
      ensures clean == (old(clean) && !st.Failed?) && (old(refused) ==> refused)
      ensures st.Failed? ==> Outside(st.error) || st.error == InvalidTimestamp || st.error == BufferOverflow
      ensures clean ==> Healthy() && Lookahead() && !trailerWritten
      ensures st.Incomplete? ==> !header && pending == old(pending) && videoWritten == old(videoWritten) && audioWritten == old(audioWritten)
      ensures st.Ok? && clean ==> header
      ensures header ==> pending == []
      ensures clean && st.Ok? ==> videoWritten == old(videoWritten) + Select(old(pending), true)
      ensures clean && st.Ok? ==> audioWritten == old(audioWritten) + Select(old(pending), false)
      ensures st.Incomplete? ==> !(format && (hasVideo ==> videoSeen && videoExtra) && (hasAudio ==> audioSeen && audioExtra))
      ensures old(clean && videoWritten == [] && audioWritten == []) ==>
                st != Failed(BufferOverflow) && (st == Failed(InvalidTimestamp) ==> TooFar(Select(old(pending), true)))
    {
      hide Accounted, Healthy, Lookahead, Select, TooFar;
      SelectNothing();
      if header { return Ok; }
      st := WriteHeader();
      if !st.Ok? { return; }
      var ready := TakeReady();
      st := WriteReady(ready);
    }

    method TakeReady() returns (ready: seq<Packet>)
      requires Accounted()
      modifies `pending, `pendingBytes
      ensures Accounted() && ready == old(pending) && pending == []
      ensures forall i :: 0 <= i < |ready| ==> NO_PTS <= ready[i].dts <= INT64_MAX
      ensures |ready| <= MAX_PENDING_PACKETS && Bytes(ready) <= MAX_PENDING_BYTES
    {
      ready := pending;
      pending, pendingBytes := [], 0;
    }

    lemma SelectNothing()
      ensures Select([], true) == [] && Select([], false) == [] && Bytes([]) == 0
    {
    }

    method WriteReady(ready: seq<Packet>) returns (st: Status)
      requires Writing() && !drained && (clean ==> Lookahead())
      requires forall i :: 0 <= i < |ready| ==> NO_PTS <= ready[i].dts <= INT64_MAX
      modifies `trailerWritten, `clean, `refused, `format, `videoExtra, `audioExtra, `videoCodecHeader
      modifies `closed, `part, `written, `segmentOrigin, `segmentHasVideo, `header
      modifies `videoPackets, `audioPackets, `queuedBytes, `videoQueued, `audioQueued
      modifies `pendingVideo, `videoWritten, `audioWritten
      ensures Writing() && (clean ==> Lookahead())
      ensures clean == (old(clean) && st.Ok?) && !st.Incomplete? && (old(refused) ==> refused)
      ensures st.Failed? ==> Outside(st.error) || st.error == InvalidTimestamp || st.error == BufferOverflow
      ensures clean ==> videoWritten == old(videoWritten) + Select(ready, true)
      ensures clean ==> audioWritten == old(audioWritten) + Select(ready, false)
      ensures old(clean && videoWritten == [] && audioWritten == []) && |ready| <= MAX_PENDING_PACKETS && Bytes(ready) <= MAX_PENDING_BYTES ==>
                st != Failed(BufferOverflow) && (st == Failed(InvalidTimestamp) ==> TooFar(Select(ready, true)))
    {
      hide *;
      ghost var first := clean && videoWritten == [] && audioWritten == [] && |ready| <= MAX_PENDING_PACKETS && Bytes(ready) <= MAX_PENDING_BYTES;
      SelectNothing();
      for i := 0 to |ready|
        invariant Writing() && (clean ==> Lookahead()) && clean == old(clean) && (old(refused) ==> refused)
        invariant clean ==> videoWritten == old(videoWritten) + Select(ready[..i], true)
        invariant clean ==> audioWritten == old(audioWritten) + Select(ready[..i], false)
      {
        if first && clean { Roomy(ready, i); }
        st := WritePacket(ready[i]);
        if st.Failed? { return; }
        assert ready[..i + 1] == ready[..i] + [ready[i]];
        SelectAppend(ready[..i], ready[i], true);
        SelectAppend(ready[..i], ready[i], false);
      }
      assert ready[..|ready|] == ready;
      return Ok;
    }

    /** Packets that could wait for the header fit the queues, one after another. */
    lemma Roomy(ready: seq<Packet>, i: nat)
      requires Writing() && clean && Lookahead() && i < |ready| <= MAX_PENDING_PACKETS && Bytes(ready) <= MAX_PENDING_BYTES
      requires videoWritten == Select(ready[..i], true) && audioWritten == Select(ready[..i], false)
      ensures !NoRoom(ready[i])
      ensures NoDuration(ready[i]) ==> TooFar(Select(ready, true))
    {
      hide Bytes, Select, Writing, NoRoom, Lookahead, TooFar, NoDuration;
      RoomyAmounts(ready, i);
      RoomyQueues(ready[i], |ready[..i]|, Bytes(ready[..i]));
      if NoDuration(ready[i]) { RoomyTimes(ready, i); }
    }

    lemma RoomyAmounts(ready: seq<Packet>, i: nat)
      requires i < |ready| && Bytes(ready) <= MAX_PENDING_BYTES
      requires videoWritten == Select(ready[..i], true) && audioWritten == Select(ready[..i], false)
      ensures |videoWritten| + |audioWritten| == i
      ensures Bytes(videoWritten) + Bytes(audioWritten) == Bytes(ready[..i])
      ensures Bytes(ready[..i]) + ready[i].size <= MAX_PENDING_BYTES
    {
      hide Bytes, Select;
      SelectAmounts(ready[..i]);
      assert ready[..i + 1] == ready[..i] + [ready[i]] && ready == ready[..i + 1] + ready[i + 1..];
      BytesAppend(ready[..i], ready[i]);
      BytesConcat(ready[..i + 1], ready[i + 1..]);
    }

    lemma RoomyQueues(p: Packet, count: nat, bytes: nat)
      requires Writing() && clean && Lookahead() && count < MAX_PENDING_PACKETS && bytes + p.size <= MAX_PENDING_BYTES
      requires |videoWritten| + |audioWritten| == count && Bytes(videoWritten) + Bytes(audioWritten) == bytes
      ensures !NoRoom(p)
    {
      hide Bytes, Retimed, Partitioned, Rested, Conserved;
      QueuedAmounts(Contents());
      HeldAmounts();
    }

    lemma HeldAmounts()
      requires Lookahead()
      ensures |videoQueued| + (if pendingVideo.Some? then 1 else 0) == |videoWritten|
      ensures Bytes(videoQueued) + (if pendingVideo.Some? then pendingVideo.value.size else 0) == Bytes(videoWritten)
    {
      hide Bytes, Retimed;
      RetimedBytes(videoWritten);
      if pendingVideo.Some? { BytesAppend(videoQueued, pendingVideo.value); }
    }

    lemma RoomyTimes(ready: seq<Packet>, i: nat)
      requires Lookahead() && i < |ready| && NoDuration(ready[i]) && videoWritten == Select(ready[..i], true)
      ensures TooFar(Select(ready, true))
    {
      hide Select, TooFar, NoDuration, Lookahead;
      HeldIsLast(ready[i]);
      SelectNext(ready, i);
      TooFarPrefix(videoWritten + [ready[i]], Select(ready, true));
    }

    lemma HeldIsLast(p: Packet)
      requires Lookahead() && NoDuration(p)
      ensures p.video && TooFar(videoWritten + [p])
    {
      var n := |videoWritten| - 1;
      assert pendingVideo.value == Retimed(videoWritten)[n];
      var v := videoWritten + [p];
      assert v[n + 1].dts - v[n].dts == p.dts - pendingVideo.value.dts;
    }

    // ---- what the sink offers ----

    /** Looks for the codec header in the stream itself. */
    method Extract() returns (st: Status)
      requires Accounted()
      modifies `videoExtra, `clean, `refused
      ensures Accounted()
      ensures clean == (old(clean) && st.Ok?) && !st.Incomplete? && (old(refused) ==> refused)
      ensures st.Failed? ==> Outside(st.error)
    {
      var found := *;
      var extracted := Ask();
      if !extracted { clean := false; return Failed(External); }
      if found { videoExtra := true; }
      return Ok;
    }

    /** A sample without a duration, or not after its predecessor in decode order. */
    ghost predicate Unordered(s: Sample)
      reads `lastVideoDts, `lastAudioDts
    {
      var last := if s.video then lastVideoDts else lastAudioDts;
      s.duration <= 0 || (last != NO_PTS && ToPacket(s).dts <= last)
    }

    /** The streams are set up and the sample's fields can be read. */
    method Prepare() returns (st: Status)
      requires Accounted()
      modifies `format, `videoExtra, `audioExtra, `clean, `refused
      ensures Accounted()
      ensures clean == (old(clean) && st.Ok?) && !st.Incomplete? && (old(refused) ==> refused)
      ensures st.Failed? ==> Outside(st.error)
      ensures st.Ok? ==> format
    {
      hide Accounted;
      st := Initialize();
      if st.Failed? { return; }
      var readable := Ask();
      if !readable { clean := false; return Failed(External); }
    }

    /** The checks a sample has to pass, in the order they are made. */
    method CheckSample(s: Sample) returns (st: Status)
      requires Accounted()
      modifies `format, `videoExtra, `audioExtra, `clean, `refused
      ensures Accounted()
      ensures clean == (old(clean) && st.Ok?) && !st.Incomplete? && (old(refused) ==> refused)
      ensures st == Failed(InvalidTimestamp) ==> Unordered(s)
      ensures st == Failed(InvalidStreamData) ==> s.size == 0 || s.size > MAX_SAMPLE_BYTES
      ensures st.Failed? ==> Outside(st.error) || st.error == InvalidTimestamp || st.error == InvalidStreamData
      ensures st.Ok? ==> format
      ensures st.Ok? ==> !Unordered(s) && 0 < s.size <= MAX_SAMPLE_BYTES
    {
      hide Accounted;
      st := Prepare();
      if st.Failed? { return; }
      var last := if s.video then lastVideoDts else lastAudioDts;
      var dts := if s.decode.Some? then s.decode.value else s.time;
      if s.duration <= 0 || (last != NO_PTS && dts <= last) { clean := false; return Failed(InvalidTimestamp); }
      if s.size == 0 || s.size > MAX_SAMPLE_BYTES { clean := false; return Failed(InvalidStreamData); }
      if s.video && !videoExtra { st := Extract(); }
    }

    /** Everything is in order except that the newest packet has not been passed on. */
    ghost predicate Owing(p: Packet)
      reads this
    {
      && Accounted() && !drained && (header ==> pending == [])
      && NO_PTS <= p.dts <= INT64_MAX
      && (clean ==>
            && Lookahead() && Healthy() && !trailerWritten && InOrder()
            && (!header ==> videoWritten == [] && audioWritten == [])
            && videoIn == videoWritten + Select(pending, true) + (if p.video then [p] else [])
            && audioIn == audioWritten + Select(pending, false) + (if p.video then [] else [p]))
    }

    method WriteNow(p: Packet) returns (st: Status)
      requires Owing(p) && header
      modifies `trailerWritten, `clean, `refused, `format, `videoExtra, `audioExtra, `videoCodecHeader
      modifies `closed, `part, `written, `segmentOrigin, `segmentHasVideo, `header
      modifies `videoPackets, `audioPackets, `queuedBytes, `videoQueued, `audioQueued
      modifies `pendingVideo, `videoWritten, `audioWritten
      ensures Accounted() && pending == []
      ensures clean == (old(clean) && st.Ok?) && !st.Incomplete? && (old(refused) ==> refused)
      ensures st != Failed(InvalidMediaType)
      ensures st == Failed(InvalidTimestamp) ==> old(NoDuration(p))
      ensures st == Failed(BufferOverflow) ==> old(NoRoom(p))
      ensures st.Failed? ==> Outside(st.error) || st.error == InvalidTimestamp || st.error == BufferOverflow
      ensures clean ==> Running()
    {
      hide Healthy, Lookahead, InOrder, Bytes, Select;
      SelectNothing();
      st := WritePacket(p);
    }

    /** No room for another packet of this size before the header. */
    predicate WaitingFull(size: nat)
      reads `pending, `pendingBytes
    {
      |pending| >= MAX_PENDING_PACKETS || pendingBytes + size > MAX_PENDING_BYTES
    }

    method WaitForHeader(p: Packet) returns (st: Status)
      requires Owing(p) && !header
      modifies `trailerWritten, `clean, `refused, `format, `videoExtra, `audioExtra, `videoCodecHeader
      modifies `closed, `part, `written, `segmentOrigin, `segmentHasVideo, `header
      modifies `videoPackets, `audioPackets, `queuedBytes, `videoQueued, `audioQueued
      modifies `pendingVideo, `videoWritten, `audioWritten
      modifies `pending, `pendingBytes
      ensures Accounted() && (header ==> pending == [])
      ensures clean == (old(clean) && !st.Failed?) && (old(refused) ==> refused)
      ensures st == Failed(InvalidMediaType) ==> old(WaitingFull(p.size))
      ensures st.Failed? ==> Outside(st.error) || st.error in {InvalidTimestamp, BufferOverflow, InvalidMediaType}
      ensures old(clean) ==> st != Failed(BufferOverflow) && (st == Failed(InvalidTimestamp) ==> TooFar(videoIn))
      ensures clean ==> Running()
    {
      hide Accounted, Running, Owing, WaitingFull, TooFar;
      OwingAccounted(p);
      if WaitingFull(p.size) {
        clean := false;
        return Failed(InvalidMediaType);
      }
      ParkOwed(p);
      st := TryHeader();
    }

    lemma OwingAccounted(p: Packet)
      requires Owing(p)
      ensures Accounted() && !drained && (header ==> pending == []) && NO_PTS <= p.dts <= INT64_MAX
    {
      hide Accounted, Lookahead, Healthy, InOrder, Select;
    }

    /** The newest packet waits behind the others. */
    method ParkOwed(p: Packet)
      requires Owing(p) && !header && !WaitingFull(p.size)
      modifies `pending, `pendingBytes
      ensures Accounted() && (clean ==> Running())
    {
      hide Accounted, Healthy, Lookahead, InOrder, Select, WaitingFull;
      SelectNothing();
      SelectAppend(pending, p, true);
      SelectAppend(pending, p, false);
      Park(p);
    }

    /** Keeps `Running` whether or not the header can be written. */
    method TryHeader() returns (st: Status)
      requires Accounted() && !drained && !header && (clean ==> Running())
      modifies `trailerWritten, `clean, `refused, `format, `videoExtra, `audioExtra, `videoCodecHeader
      modifies `closed, `part, `written, `segmentOrigin, `segmentHasVideo, `header
      modifies `videoPackets, `audioPackets, `queuedBytes, `videoQueued, `audioQueued
      modifies `pendingVideo, `videoWritten, `audioWritten, `pending, `pendingBytes
      ensures Accounted() && (header ==> pending == [])
      ensures clean == (old(clean) && !st.Failed?) && (clean ==> Running()) && (old(refused) ==> refused)
      ensures st.Failed? ==> Outside(st.error) || st.error == InvalidTimestamp || st.error == BufferOverflow
      ensures st.Incomplete? ==> !header && !(format && (hasVideo ==> videoSeen && videoExtra) && (hasAudio ==> audioSeen && audioExtra))
      ensures clean && st.Ok? ==> header
      ensures old(clean) ==> st != Failed(BufferOverflow) && (st == Failed(InvalidTimestamp) ==> TooFar(videoIn))
    {
      hide Accounted, Healthy, Lookahead, InOrder, Select, TooFar;
      SelectNothing();
      assert videoWritten == [] ==> videoWritten + Select(pending, true) == Select(pending, true);
      st := StartHeader();
    }

    method Park(p: Packet)
      requires Accounted() && !header && !WaitingFull(p.size) && NO_PTS <= p.dts <= INT64_MAX
      modifies `pending, `pendingBytes
      ensures Accounted() && pending == old(pending) + [p]
    {
      hide Bytes;
      BytesAppend(pending, p);
      pending, pendingBytes := pending + [p], pendingBytes + p.size;
    }

    /** Remembers an accepted packet and passes it on, or lets it wait for the header. */
    method AcceptPacket(p: Packet) returns (st: Status)
      requires Accounted() && (header ==> pending == []) && !drained
      requires clean ==> Running()
      requires NO_PTS <= p.dts <= INT64_MAX
      requires var last := if p.video then lastVideoDts else lastAudioDts; last == NO_PTS || last < p.dts
      modifies `trailerWritten, `clean, `refused, `format, `videoExtra, `audioExtra, `videoCodecHeader
      modifies `closed, `part, `written, `segmentOrigin, `segmentHasVideo, `header
      modifies `videoPackets, `audioPackets, `queuedBytes, `videoQueued, `audioQueued
      modifies `pendingVideo, `videoWritten, `audioWritten
      modifies `pending, `pendingBytes, `videoSeen, `audioSeen, `lastVideoDts, `lastAudioDts, `videoIn, `audioIn
      ensures Accounted() && (header ==> pending == [])
      ensures clean == (old(clean) && !st.Failed?) && (old(refused) ==> refused)
      ensures st == Failed(InvalidMediaType) ==> !old(header) && old(WaitingFull(p.size))
      ensures old(header) && st == Failed(InvalidTimestamp) ==> old(NoDuration(p))
      ensures old(header) && st == Failed(BufferOverflow) ==> old(NoRoom(p))
      ensures !old(header) && old(clean) ==> st != Failed(BufferOverflow) && (st == Failed(InvalidTimestamp) ==> TooFar(videoIn))
      ensures st.Failed? ==> Outside(st.error) || st.error in {InvalidTimestamp, BufferOverflow, InvalidMediaType}
      ensures clean ==> Running()
      ensures videoIn == old(videoIn) + (if p.video then [p] else [])
      ensures audioIn == old(audioIn) + (if p.video then [] else [p])
    {
      hide *;
      NoteAccepted(p);
      if header { st := WriteNow(p); } else { st := WaitForHeader(p); }
    }

    /** Advances the decode time of the stream; the packet is in nobody's hands yet. */
    method NoteAccepted(p: Packet)
      requires Accounted() && (header ==> pending == []) && !drained && (clean ==> Running())
      requires NO_PTS <= p.dts <= INT64_MAX
      requires var last := if p.video then lastVideoDts else lastAudioDts; last == NO_PTS || last < p.dts
      modifies `videoSeen, `audioSeen, `lastVideoDts, `lastAudioDts, `videoIn, `audioIn
      ensures Owing(p)
      ensures videoIn == old(videoIn) + (if p.video then [p] else [])
      ensures audioIn == old(audioIn) + (if p.video then [] else [p])
    {
      hide Owing, Accounted, Running;
      if p.video { NoteVideo(p); } else { NoteAudio(p); }
    }

    method NoteVideo(p: Packet)
      requires Accounted() && (header ==> pending == []) && !drained && (clean ==> Running())
      requires NO_PTS <= p.dts <= INT64_MAX && p.video && (lastVideoDts == NO_PTS || lastVideoDts < p.dts)
      modifies `videoSeen, `audioSeen, `lastVideoDts, `videoIn
      ensures Owing(p) && videoIn == old(videoIn) + [p]
    {
      hide Accounted, Healthy, Lookahead, Select, Monotone;
      MarkSeen(true);
      if clean { MonotoneAppend(videoIn, lastVideoDts, p); }
      lastVideoDts, videoIn := p.dts, videoIn + [p];
    }

    method NoteAudio(p: Packet)
      requires Accounted() && (header ==> pending == []) && !drained && (clean ==> Running())
      requires NO_PTS <= p.dts <= INT64_MAX && !p.video && (lastAudioDts == NO_PTS || lastAudioDts < p.dts)
      modifies `videoSeen, `audioSeen, `lastAudioDts, `audioIn
      ensures Owing(p) && audioIn == old(audioIn) + [p]
    {
      hide Accounted, Healthy, Lookahead, Select, Monotone;
      MarkSeen(false);
      if clean { MonotoneAppend(audioIn, lastAudioDts, p); }
      lastAudioDts, audioIn := p.dts, audioIn + [p];
    }

    method MarkSeen(video: bool)
      requires Accounted()
      modifies `videoSeen, `audioSeen
      ensures Accounted()
    {
      hide Bytes;
      if video { videoSeen := true; } else { audioSeen := true; }
    }

    /** Hands one sample to the sink. */
    method Process(s: Sample) returns (st: Status)
      requires Valid()
      modifies this
      ensures Valid()
      ensures finalized == old(finalized) && !st.Incomplete?
      ensures old(finalized) ==> st == Failed(InvalidRequest) && videoIn == old(videoIn) && audioIn == old(audioIn) && Contents() == old(Contents())
      ensures !old(finalized) && old(failure).Some? ==>
                st == Failed(old(failure).value) && failure == old(failure) && Contents() == old(Contents())
      ensures !finalized && failure.None? && st.Ok? ==>
                var p := Packet(s.video, s.time, if s.decode.Some? then s.decode.value else s.time, s.duration, s.size,
                                !s.video || s.clean, s.idr, s.payload);
                videoIn == old(videoIn) + (if s.video then [p] else []) && audioIn == old(audioIn) + (if s.video then [] else [p])
      ensures !old(finalized) && old(failure).None? ==>
                (st == Failed(InvalidStreamNumber) <==> !(if s.video then hasVideo else hasAudio))
                && (st == Failed(InvalidStreamData) ==> s.size == 0 || s.size > 16 * 1024 * 1024)
                && (st == Failed(InvalidMediaType) ==>
                      !old(header) && (|old(pending)| >= 512 || old(pendingBytes) + s.size > 32 * 1024 * 1024))
                && (st.Failed? && st.error != InvalidStreamNumber ==> failure == Some(st.error))
                && (st == Failed(External) ==> refused)
                && (st == Failed(InvalidRequest) ==> trailerWritten || (!hasVideo && !hasAudio))
      ensures !old(finalized) && old(failure).None? ==>
                var last, dts := old(if s.video then lastVideoDts else lastAudioDts), if s.decode.Some? then s.decode.value else s.time;
                var ordered := s.duration > 0 && (last == NO_PTS || dts > last);
                var held := old(pendingVideo);
                && (st.Ok? ==> ordered && 0 < s.size <= 16 * 1024 * 1024)
                && (st == Failed(InvalidTimestamp) && old(header) ==>
                      !ordered || (s.video && held.Some? && !(0 < dts - held.value.dts <= INT64_MAX)))
                && (st == Failed(BufferOverflow) ==>
                      && split && old(header) && (s.video ==> held.Some?)
                      && (|old(videoPackets)| + |old(audioPackets)| >= 512
                          || old(queuedBytes) + (if s.video then held.value.size else s.size) > 32 * 1024 * 1024))
                && (st == Failed(InvalidTimestamp) && !old(header) ==>
                      !ordered || TooFar(videoIn))
      ensures !finalized && failure.None? && st.Failed? ==>
                st == Failed(InvalidStreamNumber) && videoIn == old(videoIn) && audioIn == old(audioIn) && Contents() == old(Contents())
    {
      hide Running, Accounted, Contents, TooFar;
      if finalized { return Failed(InvalidRequest); }
      if failure.Some? { return Failed(failure.value); }
      if (s.video && !hasVideo) || (!s.video && !hasAudio) { return Failed(InvalidStreamNumber); }
      st := Submit(s);
      if st.Failed? { failure := Some(st.error); }
      if st.Incomplete? { st := Ok; }
    }

    /** A sample of a known stream: it is checked and passed on. */
    method Submit(s: Sample) returns (st: Status)
      requires Accounted() && (header ==> pending == []) && !drained && (clean ==> Running())
      modifies `trailerWritten, `clean, `refused, `format, `videoExtra, `audioExtra, `videoCodecHeader
      modifies `closed, `part, `written, `segmentOrigin, `segmentHasVideo, `header
      modifies `videoPackets, `audioPackets, `queuedBytes, `videoQueued, `audioQueued
      modifies `pendingVideo, `videoWritten, `audioWritten
      modifies `pending, `pendingBytes, `videoSeen, `audioSeen, `lastVideoDts, `lastAudioDts, `videoIn, `audioIn
      ensures Accounted() && (header ==> pending == []) && (clean ==> Running())
      ensures clean == (old(clean) && !st.Failed?) && (old(refused) ==> refused)
      ensures !st.Failed? ==>
                var p := Packet(s.video, s.time, if s.decode.Some? then s.decode.value else s.time, s.duration, s.size,
                                !s.video || s.clean, s.idr, s.payload);
                videoIn == old(videoIn) + (if s.video then [p] else []) && audioIn == old(audioIn) + (if s.video then [] else [p])
      ensures st != Failed(InvalidStreamNumber)
      ensures st == Failed(External) ==> refused
      ensures st == Failed(InvalidRequest) ==> trailerWritten || (!hasVideo && !hasAudio)
      ensures st == Failed(InvalidStreamData) ==> s.size == 0 || s.size > 16 * 1024 * 1024
      ensures st == Failed(InvalidMediaType) ==>
                !old(header) && (|old(pending)| >= 512 || old(pendingBytes) + s.size > 32 * 1024 * 1024)
      ensures var last, dts := old(if s.video then lastVideoDts else lastAudioDts), if s.decode.Some? then s.decode.value else s.time;
              var ordered := s.duration > 0 && (last == NO_PTS || dts > last);
              var held := old(pendingVideo);
              && (!st.Failed? ==> ordered && 0 < s.size <= 16 * 1024 * 1024)
              && (st == Failed(InvalidTimestamp) && old(header) ==>
                    !ordered || (s.video && held.Some? && !(0 < dts - held.value.dts <= INT64_MAX)))
              && (st == Failed(BufferOverflow) && old(header) ==>
                    && split && (s.video ==> held.Some?)
                    && (|old(videoPackets)| + |old(audioPackets)| >= 512
                        || old(queuedBytes) + (if s.video then held.value.size else s.size) > 32 * 1024 * 1024))
              && (st == Failed(InvalidTimestamp) && !old(header) && old(clean) ==>
                    !ordered || TooFar(videoIn))
      ensures !old(header) && old(clean) ==> st != Failed(BufferOverflow)
    {
      hide Running, Accounted;
      st := CheckSample(s);
      if st.Ok? { st := AcceptPacket(ToPacket(s)); }
    }

    /** A recording that finished without any failure: every accepted packet is in one part. */
    ghost predicate Complete()
      reads `closed, `segmentOrigin, `written, `videoPackets, `audioPackets, `videoQueued, `audioQueued, `failure, `videoIn, `audioIn, `lastVideoDts, `lastAudioDts
    {
      && failure.None? && InOrder()
      && Contents().video == [] && Contents().audio == []
      && Sound(Contents(), split, split, Minimum(), hevc) && Rested(Contents(), split, split)
      && videoQueued == Retimed(videoIn) && audioQueued == audioIn
      && (forall i :: 0 <= i < |videoIn| - 1 ==> Retimed(videoIn)[i].duration > 0)
    }

    /** The queues have no room for the held packet. */
    ghost predicate HeldTooLarge()
      reads `pendingVideo, `queuedBytes, `videoPackets, `audioPackets
    {
      split && pendingVideo.Some? && QueuesFull(pendingVideo.value.size)
    }

    /** Hands the packet the look-ahead still holds to the queues. */
    method FlushHeld() returns (st: Status)
      requires Writing() && !drained && (clean ==> Lookahead())
      modifies `trailerWritten, `clean, `refused, `format, `videoExtra, `audioExtra, `videoCodecHeader
      modifies `closed, `part, `written, `segmentOrigin, `segmentHasVideo, `header
      modifies `videoPackets, `audioPackets, `queuedBytes, `videoQueued, `audioQueued, `pendingVideo
      ensures st.Failed? ==> Outside(st.error) || (st.error == BufferOverflow && old(HeldTooLarge()))
      ensures Writing() && pendingVideo.None?
      ensures clean == (old(clean) && st.Ok?) && !st.Incomplete? && (old(refused) ==> refused)
      ensures clean ==> videoQueued == Retimed(videoWritten) && audioQueued == audioWritten
      ensures clean ==> forall i :: 0 <= i < |videoQueued| - 1 ==> videoQueued[i].duration > 0
    {
      hide Healthy, Accounted, Retimed;
      if pendingVideo.None? { return Ok; }
      var held := pendingVideo.value;
      pendingVideo := None;
      ghost var length;
      st, length := MuxPacket(held);
    }

    /** Drains the queues for good; nothing is queued afterwards. */
    method FlushQueues() returns (st: Status)
      requires Writing() && !drained
      modifies `trailerWritten, `clean, `refused, `format, `videoExtra, `audioExtra, `videoCodecHeader
      modifies `closed, `part, `written, `segmentOrigin, `segmentHasVideo, `header
      modifies `videoPackets, `audioPackets, `queuedBytes, `drained
      ensures st.Failed? ==> Outside(st.error)
      ensures Accounted() && pending == []
      ensures clean == (old(clean) && st.Ok?) && !st.Incomplete? && (old(refused) ==> refused)
      ensures clean ==> Consistent() && Rested(Contents(), split, drained) && header && !trailerWritten
      ensures clean ==> drained == split && videoPackets == [] && audioPackets == []
      ensures st.Ok? && split ==> videoPackets == [] && audioPackets == []
    {
      hide Sound, Accounted;
      if !split {
        if clean { NothingQueued(); }
        return Ok;
      }
      if clean { LastCall(Contents(), Minimum(), hevc); }
      drained := true;
      ghost var length;
      st, length := DrainSegments(true);
    }

    lemma NothingQueued()
      requires Healthy() && !split
      ensures videoPackets == [] && audioPackets == []
    {
    }

    /** The header has to be written before anything else can be finished. */
    method BeginFinalize() returns (st: Status)
      requires Valid() && !finalized && failure.None? && !header
      modifies `trailerWritten, `clean, `refused, `format, `videoExtra, `audioExtra, `videoCodecHeader
      modifies `closed, `part, `written, `segmentOrigin, `segmentHasVideo, `header
      modifies `videoPackets, `audioPackets, `queuedBytes, `videoQueued, `audioQueued
      modifies `pendingVideo, `videoWritten, `audioWritten, `pending, `pendingBytes
      ensures Accounted() && (header ==> pending == []) && !st.Incomplete?
      ensures clean ==> Running() && failure.None?
      ensures st.Ok? ==> header && clean == old(clean)
      ensures st.Failed? && header ==> !clean
      ensures st.Failed? ==> Outside(st.error) || st.error == InvalidStreamData || (st.error == InvalidTimestamp && TooFar(videoIn))
      ensures st == Failed(InvalidStreamData) ==>
                !header && !(format && (hasVideo ==> videoSeen && videoExtra) && (hasAudio ==> audioSeen && audioExtra))
    {
      hide Accounted, Running, TooFar;
      st := TryHeader();
      if st.Incomplete? { st := Failed(InvalidStreamData); }
    }

    /** The held packet and the queues, whatever went wrong before; `flushed` says that none of
        these writes failed. */
    method FlushParts(before: Status) returns (st: Status, flushed: bool)
      requires Writing() && !drained && header && !before.Incomplete?
      requires clean ==> Running() && before.Ok?
      modifies `trailerWritten, `clean, `refused, `format, `videoExtra, `audioExtra, `videoCodecHeader
      modifies `closed, `part, `written, `segmentOrigin, `segmentHasVideo, `header
      modifies `videoPackets, `audioPackets, `queuedBytes, `videoQueued, `audioQueued, `pendingVideo, `drained
      ensures Accounted() && pending == [] && !st.Incomplete? && (old(refused) ==> refused)
      ensures clean ==> st.Ok? && before.Ok? && !trailerWritten && (failure.None? ==> Complete())
      ensures trailerWritten ==> st.Failed?
      ensures st.Ok? ==> before.Ok? && (old(clean) ==> clean)
      ensures st.Failed? ==> st == before || Outside(st.error) || (st.error == BufferOverflow && old(HeldTooLarge()))
      ensures pendingVideo.None? && (split && flushed ==> videoPackets == [] && audioPackets == [])
      ensures st == before || (!flushed && st.Failed?)
    {
      hide Accounted, Running, Complete, Writing, HeldTooLarge;
      st := before;
      var held, queues := FlushBoth();
      if held.Failed? { st := held; }
      if queues.Failed? { st := queues; }
      flushed := held.Ok? && queues.Ok? && !trailerWritten;
      if trailerWritten && !st.Failed? { st := Failed(InvalidRequest); }
    }

    /** First the held packet; the queues only if that did not end the last part. */
    method FlushBoth() returns (held: Status, queues: Status)
      requires Writing() && !drained && header && (clean ==> Running())
      modifies `trailerWritten, `clean, `refused, `format, `videoExtra, `audioExtra, `videoCodecHeader
      modifies `closed, `part, `written, `segmentOrigin, `segmentHasVideo, `header
      modifies `videoPackets, `audioPackets, `queuedBytes, `videoQueued, `audioQueued, `pendingVideo, `drained
      ensures Accounted() && pending == [] && !held.Incomplete? && !queues.Incomplete? && (old(refused) ==> refused)
      ensures clean == (old(clean) && held.Ok? && queues.Ok?)
      ensures clean ==> !trailerWritten && (failure.None? ==> Complete())
      ensures held.Failed? ==> Outside(held.error) || (held.error == BufferOverflow && old(HeldTooLarge()))
      ensures queues.Failed? ==> Outside(queues.error)
      ensures pendingVideo.None? && (split && queues.Ok? && !trailerWritten ==> videoPackets == [] && audioPackets == [])
    {
      hide Healthy, Accounted, Lookahead, Retimed, InOrder, Consistent, Rested, Running, Complete, HeldTooLarge;
      if clean { AllPassedOn(); }
      held := FlushHeld();
      queues := FlushOpen();
      if clean && failure.None? { AllWritten(); }
    }

    /** Drains the queues unless the last part is already finished. */
    method FlushOpen() returns (st: Status)
      requires Writing() && !drained
      modifies `trailerWritten, `clean, `refused, `format, `videoExtra, `audioExtra, `videoCodecHeader
      modifies `closed, `part, `written, `segmentOrigin, `segmentHasVideo, `header
      modifies `videoPackets, `audioPackets, `queuedBytes, `drained
      ensures st.Failed? ==> Outside(st.error)
      ensures Accounted() && pending == []
      ensures clean == (old(clean) && st.Ok?) && !st.Incomplete? && (old(refused) ==> refused)
      ensures clean ==> Consistent() && Rested(Contents(), split, drained) && !trailerWritten
      ensures clean ==> drained == split && videoPackets == [] && audioPackets == []
      ensures st.Ok? && split && !trailerWritten ==> videoPackets == [] && audioPackets == []
      ensures old(trailerWritten) ==> trailerWritten
    {
      hide Accounted, Healthy, Consistent, Rested;
      if trailerWritten { return Ok; }
      st := FlushQueues();
    }

    lemma AllPassedOn()
      requires Running() && header && pending == []
      ensures videoIn == videoWritten && audioIn == audioWritten && InOrder() && Lookahead()
    {
      hide Healthy, Lookahead, InOrder, Select;
      SelectNothing();
    }

    lemma AllWritten()
      requires failure.None? && InOrder() && Consistent() && Rested(Contents(), split, drained)
      requires drained == split && videoPackets == [] && audioPackets == []
      requires videoQueued == Retimed(videoIn) && audioQueued == audioIn
      requires forall i :: 0 <= i < |videoQueued| - 1 ==> videoQueued[i].duration > 0
      ensures Complete()
    {
      hide Sound, Rested, InOrder;
    }

    /** Writes out everything still held, and the trailer of the last part. */
    method FinishParts(before: Status) returns (st: Status)
      requires Writing() && !drained && header && !before.Incomplete?
      requires clean ==> Running() && before.Ok?
      modifies `trailerWritten, `clean, `refused, `format, `videoExtra, `audioExtra, `videoCodecHeader
      modifies `closed, `part, `written, `segmentOrigin, `segmentHasVideo, `header
      modifies `videoPackets, `audioPackets, `queuedBytes, `videoQueued, `audioQueued, `pendingVideo, `drained
      ensures Accounted() && pending == [] && !st.Incomplete? && (old(refused) ==> refused) && trailerWritten
      ensures clean ==> st.Ok? && before.Ok?
      ensures st.Ok? ==> before.Ok? && (old(clean) ==> clean)
      ensures st.Failed? ==> st == before || Outside(st.error) || (st.error == BufferOverflow && old(HeldTooLarge()))
      ensures clean && failure.None? ==> Complete()
    {
      hide Running, Complete;
      var flushed;
      st, flushed := FlushParts(before);
      if trailerWritten { return; }
      trailerWritten := true;
      var closing := Ask();
      if !closing { clean := false; st := Failed(External); }
    }

    /** Ends the recording: the held packet, the queues, then the trailer of the last part. */
    method Finalize() returns (st: Status)
      requires Valid()
      modifies this
      ensures !old(finalized) && old(failure).None? && st.Failed? ==>
                && (st.error == External ==> refused)
                && (st.error == InvalidRequest ==> trailerWritten || (!hasVideo && !hasAudio))
                && (st.error == InvalidTimestamp ==> !old(header) && TooFar(videoIn))
                && (st.error == InvalidStreamData ==>
                      !header && !(format && (hasVideo ==> videoSeen && videoExtra) && (hasAudio ==> audioSeen && audioExtra)))
                && st.error != InvalidStreamNumber && st.error != InvalidMediaType
      ensures old(header) && !old(finalized) && old(failure).None? && st == Failed(BufferOverflow) ==>
                && split && old(pendingVideo).Some?
                && (|old(videoPackets)| + |old(audioPackets)| >= 512
                    || old(queuedBytes) + old(pendingVideo).value.size > 32 * 1024 * 1024)
      ensures Valid() && finalized && !st.Incomplete?
      ensures st.Ok? ==> Complete() && videoIn == old(videoIn) && audioIn == old(audioIn) && !old(finalized)
      ensures old(finalized) || old(failure).Some? ==> st.Failed?
    {
      hide Complete, Accounted, Healthy, Lookahead, Accepted, TooFar;
      if finalized { return Failed(InvalidRequest); }
      if trailerWritten || (!header && failure.Some?) {
        finalized := true;
        return Failed(if failure.Some? then failure.value else InvalidRequest);
      }
      st := Ok;
      if !header { st := BeginFinalize(); }
      if header { st := FinishParts(st); }
      if st.Ok? && failure.Some? { st := Failed(failure.value); }
      finalized := true;
    }

    // ---- what a finished recording guarantees ----

    /** Whatever the timestamps: nothing is lost, repeated or reordered, whether split or not. */
    lemma NothingLost()
      requires Complete()
      ensures Muxed(Parts(Contents()), true) == Retimed(videoIn)
      ensures Muxed(Parts(Contents()), false) == audioIn
      ensures forall i :: 0 <= i < |videoIn| - 1 ==>
                Retimed(videoIn)[i].duration == videoIn[i + 1].dts - videoIn[i].dts > 0
    {
      hide Rested, Partitioned, Timed, Muxed, Of, SafeKey, Retimed;
      AllMuxed(Contents(), true);
      AllMuxed(Contents(), false);
      forall i | 0 <= i < |videoIn| - 1
        ensures Retimed(videoIn)[i].duration == videoIn[i + 1].dts - videoIn[i].dts > 0
      {
        RetimedAt(videoIn, i);
      }
    }

    /** Presentation never precedes decoding, and nothing precedes the start of the recording. */
    ghost predicate PlainTimes()
      reads `videoIn, `audioIn
    {
      && (forall i :: 0 <= i < |videoIn| ==> videoIn[i].pts >= videoIn[i].dts >= 0)
      && (forall i :: 0 <= i < |audioIn| ==> audioIn[i].pts == audioIn[i].dts >= 0)
    }

    lemma QueuesWereTimed()
      requires Complete() && PlainTimes()
      ensures Timed(Contents())
    {
      hide Sound, Rested, Muxed, Of, Parts, Retimed;
      NothingLost();
      MuxedKind(Parts(Contents()), true);
      MuxedKind(Parts(Contents()), false);
      RetimedKeeps(videoIn);
      assert Increasing(videoIn) && Increasing(audioIn);
    }

    /** The finished files, oldest first. */
    function Files(): seq<Part>
      reads `closed, `segmentOrigin, `written
    {
      closed + [Part(segmentOrigin, written)]
    }

    /** Where every accepted packet of a stream is: at exactly one place of the files, in the order
        accepted, with times relative to its file; a picture lasts until the next one. */
    lemma FilesHold(video: bool) returns (places: seq<Place>)
      requires Complete()
      ensures var taken := if video then videoIn else audioIn;
              && |places| == |taken| && Places(Files(), video, places)
              && forall i :: 0 <= i < |taken| ==>
                   && places[i].part < |Files()| && places[i].at < |Files()[places[i].part].written|
                   && var file := Files()[places[i].part];
                      file.written[places[i].at] ==
                        Packet(video, taken[i].pts - file.origin, taken[i].dts - file.origin,
                               if video && i + 1 < |taken| then taken[i + 1].dts - taken[i].dts else taken[i].duration,
                               taken[i].size, taken[i].key, taken[i].idr, taken[i].payload)
    {
      hide Sound, Rested, Muxed, Of, Retimed, Places;
      NothingLost();
      places := MuxedPlaced(Files(), video);
      PlacesHold(Files(), video, places);
      RetimedExactly(videoIn);
    }

    /** Every cut is exact: audio is split by presentation time alone, a part opens with a
        decodable key at its own time zero and cuts no earlier picture off, and in time mode
        consecutive parts start at least the configured duration apart. */
    lemma ExactPartition(k: nat)
      requires Complete() && split && PlainTimes() && k <= |closed|
      ensures Files()[0].origin == 0
      ensures k < |closed| ==> Files()[k].origin < Files()[k + 1].origin
                               && Files()[k].origin + (if splitBytes == 0 then splitDuration else 0) <= Files()[k + 1].origin
      ensures forall n :: 0 <= n < |Files()[k].written| ==>
                var p := Files()[k].written[n];
                p.pts >= 0 && (!p.video && k < |closed| ==> p.pts + Files()[k].origin < Files()[k + 1].origin)
      ensures k > 0 ==> exists n :: && 0 <= n < |Files()[k].written|
                                    && (forall m :: 0 <= m < n ==> !Files()[k].written[m].video)
                                    && var v := Files()[k].written[n];
                                       v.video && v.pts == 0 && v.key && (hevc ==> v.pts == v.dts || v.idr)
      ensures k == |closed| && videoIn != [] ==> exists n :: 0 <= n < |written| && written[n].video
      ensures k == |closed| && audioIn != [] ==> exists n :: 0 <= n < |written| && !written[n].video
    {
      hide Conserved, Of, Settled, SafeKey, VideoPart, AudioPart, Complete;
      PartitionOf(k);
      var part := Files()[k];
      var video := OfPlaced(part, true);
      var audio := OfPlaced(part, false);
      StreamTimes(part, true, video, Of(part, true), None);
      StreamTimes(part, false, audio, Of(part, false), if k < |closed| then Some(Files()[k + 1].origin) else None);
      if k > 0 { FileOpens(part, video); }
    }

    /** The same in terms of the streams of a part, with absolute times. */
    lemma PartitionOf(k: nat)
      requires Complete() && split && PlainTimes() && k <= |closed|
      ensures Files()[0].origin == 0
      ensures k < |closed| ==> Files()[k].origin < Files()[k + 1].origin
                               && Files()[k].origin + (if splitBytes == 0 then splitDuration else 0) <= Files()[k + 1].origin
      ensures forall p :: p in Of(Files()[k], false) ==> Files()[k].origin <= p.pts && (k < |closed| ==> p.pts < Files()[k + 1].origin)
      ensures forall p :: p in Of(Files()[k], true) ==> p.pts >= Files()[k].origin
      ensures k > 0 ==> var v := Of(Files()[k], true);
                        v != [] && v[0].key && (hevc ==> v[0].pts == v[0].dts || v[0].idr) && v[0].pts == Files()[k].origin
      ensures k == |closed| && videoIn != [] ==> Of(Files()[k], true) != []
      ensures k == |closed| && audioIn != [] ==> Of(Files()[k], false) != []
    {
      hide Of, SafeKey, VideoPart, Partitioned, Conserved, Settled, Timed, Complete;
      PartitionedAtLast();
      OriginsApart(Contents(), Minimum(), hevc, k);
      forall p | p in Of(Files()[k], false) ensures Files()[k].origin <= p.pts && (k < |closed| ==> p.pts < Files()[k + 1].origin) {
        AudioInside(Contents(), Minimum(), hevc, k, p);
      }
      VideoOfPart(Contents(), Minimum(), hevc, k);
    }

    lemma PartitionedAtLast()
      requires Complete() && split && PlainTimes()
      ensures Conserved(Contents()) && Partitioned(Contents(), true, Minimum(), hevc) && Settled(Contents(), true)
      ensures Contents().video == [] == Contents().audio && Files() == Parts(Contents()) && |Contents().closed| == |closed|
      ensures Contents().videoIn != [] <==> videoIn != []
      ensures Contents().audioIn == audioIn
    {
      hide Conserved, Of, Settled, Partitioned;
      QueuesWereTimed();
    }

    lemma FileOpens(part: Part, video: seq<nat>)
      requires Listed(part.written, true, video) && |video| == |Of(part, true)| > 0
      requires video[0] < |part.written| && Of(part, true)[0] == Restore(part.written[video[0]], part.origin)
      requires var v := Of(part, true)[0]; v.pts == part.origin && v.key && (hevc ==> v.pts == v.dts || v.idr)
      ensures exists n :: && 0 <= n < |part.written| && (forall m :: 0 <= m < n ==> !part.written[m].video)
                          && var v := part.written[n]; v.video && v.pts == 0 && v.key && (hevc ==> v.pts == v.dts || v.idr)
    {
      hide Of;
      assert forall m :: 0 <= m < video[0] && part.written[m].video ==> m in video;
    }
  }
}
