/**
  The archive a split recording produces, seen as a value: the finished parts, the part
  being written, and the two queues of packets that still wait for a decision.

  libavformat is a list of packets per part. The muxer stores timestamps relative to the
  part, so every statement below goes through `Restore`, which adds the origin back.
*/
module SplitArchive {
  import opened Wrappers

  /** One compressed access unit. `idr` stands for the HEVC IDR scan of the payload. */
  datatype Packet = Packet(video: bool, pts: int, dts: int, duration: int, size: nat, key: bool, idr: bool, payload: nat)

  datatype Part = Part(origin: int, written: seq<Packet>)

  /** `videoIn` and `audioIn` list every packet ever handed to the split queues. */
  datatype Archive = Archive(closed: seq<Part>, current: Part,
                             video: seq<Packet>, audio: seq<Packet>,
                             videoIn: seq<Packet>, audioIn: seq<Packet>)

  function Shift(p: Packet, origin: int): Packet {
    p.(pts := p.pts - origin, dts := p.dts - origin)
  }

  function Restore(p: Packet, origin: int): Packet {
    p.(pts := p.pts + origin, dts := p.dts + origin)
  }

  function Bytes(packets: seq<Packet>): nat {
    if packets == [] then 0 else packets[0].size + Bytes(packets[1..])
  }

  lemma BytesAppend(packets: seq<Packet>, p: Packet)
    ensures Bytes(packets + [p]) == Bytes(packets) + p.size
  {
    if packets == [] {
      assert [] + [p] == [p];
    } else {
      assert (packets + [p])[1..] == packets[1..] + [p];
      BytesAppend(packets[1..], p);
    }
  }

  /** The packets of one stream in a part, in the order written, with absolute timestamps. */
  ghost function Of(part: Part, video: bool): seq<Packet>
    decreases |part.written|
  {
    if part.written == [] then []
    else
      var rest, last := part.written[..|part.written| - 1], part.written[|part.written| - 1];
      Of(Part(part.origin, rest), video) + if last.video == video then [Restore(last, part.origin)] else []
  }

  /** The packets of one stream over consecutive parts. */
  ghost function Muxed(parts: seq<Part>, video: bool): seq<Packet> {
    if parts == [] then [] else Muxed(parts[..|parts| - 1], video) + Of(parts[|parts| - 1], video)
  }

  ghost function Select(packets: seq<Packet>, video: bool): seq<Packet> {
    if packets == [] then []
    else Select(packets[..|packets| - 1], video) +
         if packets[|packets| - 1].video == video then [packets[|packets| - 1]] else []
  }

  lemma OfAppend(part: Part, p: Packet, video: bool)
    ensures Of(Part(part.origin, part.written + [Shift(p, part.origin)]), video)
         == Of(part, video) + if p.video == video then [p] else []
  {
  }

  lemma MuxedAppend(parts: seq<Part>, part: Part, video: bool)
    ensures Muxed(parts + [part], video) == Muxed(parts, video) + Of(part, video)
  {
  }

  lemma SelectAppend(packets: seq<Packet>, p: Packet, video: bool)
    ensures Select(packets + [p], video) == Select(packets, video) + if p.video == video then [p] else []
  {
  }

  lemma {:induction false} SelectConcat(x: seq<Packet>, y: seq<Packet>, video: bool)
    ensures Select(x + y, video) == Select(x, video) + Select(y, video)
  {
    hide Select;
    NothingSelected();
    if y == [] {
      assert x + y == x;
    } else {
      var front, last := y[..|y| - 1], y[|y| - 1];
      SelectConcat(x, front, video);
      assert y == front + [last] && x + y == x + front + [last];
      SelectAppend(x + front, last, video);
      SelectAppend(front, last, video);
    }
  }

  /** What was selected so far and the next packet are the beginning of the whole selection. */
  lemma SelectNext(packets: seq<Packet>, i: nat)
    requires i < |packets|
    ensures Select(packets[..i], packets[i].video) + [packets[i]] <= Select(packets, packets[i].video)
  {
    hide Select;
    CutAt(packets, i);
    SelectBegins(packets[..i], packets[i], packets[i + 1..]);
  }

  lemma CutAt(packets: seq<Packet>, i: nat)
    requires i < |packets|
    ensures packets[..i] + [packets[i]] + packets[i + 1..] == packets
  {
  }

  lemma SelectBegins(before: seq<Packet>, p: Packet, after: seq<Packet>)
    ensures Select(before, p.video) + [p] <= Select(before + [p] + after, p.video)
  {
    hide Select;
    SelectConcat(before + [p], after, p.video);
    SelectAppend(before, p, p.video);
  }

  /** Both streams together have the packets and bytes of the whole. */
  lemma {:induction false} SelectAmounts(packets: seq<Packet>)
    ensures |Select(packets, true)| + |Select(packets, false)| == |packets|
    ensures Bytes(Select(packets, true)) + Bytes(Select(packets, false)) == Bytes(packets)
  {
    hide Bytes, Select;
    NothingSelected();
    if packets != [] {
      var front, last := packets[..|packets| - 1], packets[|packets| - 1];
      SelectAmounts(front);
      assert packets == front + [last];
      BytesAppend(front, last);
      SelectAppend(front, last, true);
      SelectAppend(front, last, false);
      BytesAppend(Select(front, true), last);
      BytesAppend(Select(front, false), last);
      assert Select(front, true) + [] == Select(front, true) && Select(front, false) + [] == Select(front, false);
    }
  }

  lemma NothingSelected()
    ensures Select([], true) == [] == Select([], false) && Bytes([]) == 0
  {
  }

  lemma {:induction false} BytesConcat(x: seq<Packet>, y: seq<Packet>)
    ensures Bytes(x + y) == Bytes(x) + Bytes(y)
  {
    if x == [] {
      assert x + y == y;
    } else {
      BytesConcat(x[1..], y);
      assert (x + y)[1..] == x[1..] + y;
    }
  }

  lemma {:induction false} BytesSame(s: seq<Packet>, t: seq<Packet>)
    requires |s| == |t| && forall i :: 0 <= i < |s| ==> s[i].size == t[i].size
    ensures Bytes(s) == Bytes(t)
  {
    if s != [] { BytesSame(s[1..], t[1..]); }
  }

  /** What is queued of a stream is part of what was handed over. */
  lemma QueuedAmounts(a: Archive)
    requires Conserved(a)
    ensures |a.video| <= |a.videoIn| && Bytes(a.video) <= Bytes(a.videoIn)
    ensures |a.audio| <= |a.audioIn| && Bytes(a.audio) <= Bytes(a.audioIn)
  {
    hide Of, Muxed, Bytes;
    BytesConcat(Muxed(a.closed, true) + Of(a.current, true), a.video);
    BytesConcat(Muxed(a.closed, false) + Of(a.current, false), a.audio);
  }

  /** Every packet accepted is in exactly one place: a part, or the queue of its stream. */
  ghost predicate Conserved(a: Archive) {
    && Muxed(a.closed, true) + Of(a.current, true) + a.video == a.videoIn
    && Muxed(a.closed, false) + Of(a.current, false) + a.audio == a.audioIn
  }

  ghost predicate TimedVideo(s: seq<Packet>) {
    && (forall i :: 0 <= i < |s| ==> s[i].video && s[i].pts >= s[i].dts >= 0)
    && (forall i, j :: 0 <= i < j < |s| ==> s[i].dts < s[j].dts)
  }

  ghost predicate TimedAudio(s: seq<Packet>) {
    && (forall i :: 0 <= i < |s| ==> !s[i].video && s[i].pts == s[i].dts >= 0)
    && (forall i, j :: 0 <= i < j < |s| ==> s[i].pts < s[j].pts)
  }

  ghost predicate Timed(a: Archive) {
    TimedVideo(a.videoIn) && TimedAudio(a.audioIn)
  }

  function SafeKey(p: Packet, hevc: bool): bool {
    p.key && (!hevc || p.pts == p.dts || p.idr)
  }

  function Origin(a: Archive, k: nat): int
    requires k <= |a.closed|
  {
    if k < |a.closed| then a.closed[k].origin else a.current.origin
  }

  /** What a part promises about its video: nothing starts before it, and every part after
      the first opens with the decodable key picture whose presentation time is its origin. */
  ghost predicate VideoPart(packets: seq<Packet>, origin: int, first: bool, hevc: bool) {
    && (forall p :: p in packets ==> p.pts >= origin)
    && (!first && packets != [] ==> packets[0].pts == origin && SafeKey(packets[0], hevc))
  }

  ghost predicate AudioPart(packets: seq<Packet>, from: int, to: int) {
    forall p :: p in packets ==> from <= p.pts < to
  }

  ghost predicate Closed(a: Archive, minimum: nat, hevc: bool) {
    && Origin(a, 0) == 0
    && (forall k :: 0 <= k < |a.closed| ==> Origin(a, k) < Origin(a, k + 1) && Origin(a, k) + minimum <= Origin(a, k + 1))
    && (forall k :: 0 <= k < |a.closed| ==> AudioPart(Of(a.closed[k], false), Origin(a, k), Origin(a, k + 1)))
    && (forall k :: 0 <= k < |a.closed| ==> Of(a.closed[k], true) != [] && VideoPart(Of(a.closed[k], true), Origin(a, k), k == 0, hevc))
  }

  /** The open part and the queues only hold packets that belong at or after its origin, and
      no later packet can belong before it either. `drained` means no packet follows. */
  ghost predicate Open(a: Archive, drained: bool, hevc: bool) {
    && VideoPart(Of(a.current, true), a.current.origin, |a.closed| == 0, hevc)
    && (forall p :: p in Of(a.current, false) ==> p.pts >= a.current.origin)
    && (forall p :: p in a.video ==> p.pts >= a.current.origin)
    && (forall p :: p in a.audio ==> p.pts >= a.current.origin)
    && (|a.closed| > 0 ==> a.audioIn != [] && a.audioIn[|a.audioIn| - 1].pts >= a.current.origin)
    && (|a.closed| > 0 && !drained ==> a.videoIn != [] && a.videoIn[|a.videoIn| - 1].dts >= a.current.origin)
  }

  ghost predicate Below(packets: seq<Packet>, bound: int) {
    forall p :: p in packets ==> p.pts < bound
  }

  /** Audio already in the open part is earlier than its latest picture. */
  ghost predicate Settled(a: Archive, drained: bool) {
    && (|a.closed| > 0 ==> Of(a.current, true) != [])
    && (Of(a.current, false) != [] && !(drained && a.audio == []) ==>
          Of(a.current, true) != [] && Below(Of(a.current, false), Of(a.current, true)[|Of(a.current, true)| - 1].dts))
  }

  ghost predicate Partitioned(a: Archive, drained: bool, minimum: nat, hevc: bool) {
    Closed(a, minimum, hevc) && Open(a, drained, hevc)
  }

  /** The invariant of the queues and parts of a run without failures. */
  ghost predicate Sound(a: Archive, split: bool, drained: bool, minimum: nat, hevc: bool) {
    && Conserved(a)
    && (forall i :: 0 <= i < |a.video| ==> a.video[i].video)
    && (forall i :: 0 <= i < |a.audio| ==> !a.audio[i].video)
    && (split && Timed(a) ==> Partitioned(a, drained, minimum, hevc))
    && (!split ==> a.video == [] && a.audio == [] && a.closed == [] && a.current.origin == 0)
  }

  ghost predicate Calm(a: Archive, drained: bool, boundary: int) {
    Timed(a) ==> Below(Of(a.current, false), boundary) || (drained && a.audio == [])
  }

  ghost predicate Rested(a: Archive, split: bool, drained: bool) {
    split && Timed(a) ==> Settled(a, drained)
  }

  lemma TakeAudioSound(a: Archive, drained: bool, minimum: nat, hevc: bool, boundary: int)
    requires Sound(a, true, drained, minimum, hevc) && Calm(a, drained, boundary)
    requires a.audio != [] && a.audio[0].pts < boundary
    ensures Sound(TakeAudio(a), true, drained, minimum, hevc) && Calm(TakeAudio(a), drained, boundary)
    ensures Of(TakeAudio(a).current, true) == Of(a.current, true)
  {
    TakeAudioConserves(a);
    if Timed(a) { TakeAudioPartitioned(a, drained, minimum, hevc); }
  }

  lemma TakeLastAudioSound(a: Archive, minimum: nat, hevc: bool)
    requires Sound(a, true, true, minimum, hevc) && a.audio != []
    ensures Sound(TakeAudio(a), true, true, minimum, hevc)
    ensures Of(TakeAudio(a).current, true) == Of(a.current, true)
  {
    TakeAudioConserves(a);
    if Timed(a) { TakeAudioPartitioned(a, true, minimum, hevc); }
  }

  /** What the roll rule and the wait rules have established when a new part begins. */
  ghost predicate Rollable(a: Archive, drained: bool, minimum: nat, hevc: bool) {
    && a.video != [] && a.audio != [] && Of(a.current, true) != []
    && a.video[0].pts > a.current.origin && a.video[0].pts >= a.current.origin + minimum
    && (Timed(a) ==>
          && Below(Of(a.current, false), a.video[0].pts) && a.audio[0].pts >= a.video[0].pts
          && (forall i :: 0 <= i < |a.video| ==> a.video[i].pts >= a.video[0].pts)
          && (drained || a.video[|a.video| - 1].dts >= a.video[0].pts))
  }

  lemma RollSound(a: Archive, drained: bool, minimum: nat, hevc: bool)
    requires Sound(a, true, drained, minimum, hevc) && Rollable(a, drained, minimum, hevc)
    ensures Sound(Roll(a, a.video[0].pts), true, drained, minimum, hevc)
    ensures Of(Roll(a, a.video[0].pts).current, true) == [] && Of(Roll(a, a.video[0].pts).current, false) == []
  {
    RollConserves(a, a.video[0].pts);
    if Timed(a) { RollPartitioned(a, drained, minimum, hevc); }
  }

  lemma CalmAfterRoll(a: Archive, drained: bool, boundary: int)
    requires Of(a.current, false) == []
    ensures Calm(a, drained, boundary)
  {
  }

  lemma TakeVideoSound(a: Archive, drained: bool, minimum: nat, hevc: bool)
    requires Sound(a, true, drained, minimum, hevc) && a.video != []
    requires Calm(a, drained, a.video[0].dts)
    requires Timed(a) && Of(a.current, true) == [] && |a.closed| > 0 ==> a.video[0].pts == a.current.origin && SafeKey(a.video[0], hevc)
    ensures Sound(TakeVideo(a), true, drained, minimum, hevc) && Rested(TakeVideo(a), true, drained)
    ensures Of(TakeVideo(a).current, true) != []
  {
    TakeVideoConserves(a);
    if Timed(a) { TakeVideoPartitioned(a, drained, minimum, hevc); }
  }

  /** Audio written so far is earlier than the picture at the head of the queue. */
  lemma CalmAtHead(a: Archive, drained: bool, minimum: nat, hevc: bool, boundary: int)
    requires Sound(a, true, drained, minimum, hevc) && Rested(a, true, drained) && a.video != []
    requires boundary == a.video[0].dts || boundary == a.video[0].pts
    ensures Calm(a, drained, boundary)
  {
    hide Of, Conserved, Partitioned, TimedAudio, SafeKey;
    if Timed(a) { QueuesTimed(a); }
  }

  lemma AudioSorted(a: Archive)
    requires Conserved(a) && Timed(a) && a.audio != []
    ensures a.audio[0].pts <= a.audio[|a.audio| - 1].pts
  {
    QueuesTimed(a);
    assert |a.audio| > 1 ==> a.audio[0].pts < a.audio[|a.audio| - 1].pts;
  }

  /** A boundary beyond all audio has released all of it, so the picture may follow. */
  lemma CalmAfterRelease(a: Archive, drained: bool, boundary: int)
    requires Conserved(a) && Calm(a, drained, boundary) && a.video != []
    requires a.audio == [] || a.audio[0].pts >= boundary
    requires boundary == a.video[0].dts || (drained && (a.audio == [] || a.audio[|a.audio| - 1].pts < boundary))
    ensures Calm(a, drained, a.video[0].dts)
  {
    if Timed(a) && a.audio != [] { AudioSorted(a); }
  }

  /** A key that is not reordered precedes everything queued behind it. */
  lemma UnorderedKey(a: Archive)
    requires Conserved(a) && Timed(a) && a.video != [] && a.video[0].pts <= a.video[0].dts
    ensures forall i :: 0 <= i < |a.video| ==> a.video[i].pts >= a.video[0].pts
    ensures a.video[|a.video| - 1].dts >= a.video[0].pts
  {
    QueuesTimed(a);
    forall i | 0 <= i < |a.video| ensures a.video[i].pts >= a.video[0].pts && a.video[i].dts >= a.video[0].pts {
      assert i > 0 ==> a.video[0].dts < a.video[i].dts;
    }
  }

  lemma QueueSound(a: Archive, p: Packet, minimum: nat, hevc: bool)
    requires Sound(a, true, false, minimum, hevc) && Rested(a, true, false)
    ensures p.video ==> Sound(QueueVideo(a, p), true, false, minimum, hevc) && Rested(QueueVideo(a, p), true, false)
    ensures !p.video ==> Sound(QueueAudio(a, p), true, false, minimum, hevc) && Rested(QueueAudio(a, p), true, false)
  {
    QueueConserves(a, p);
    TimedPrefix(a, p);
    if Timed(QueueVideo(a, p)) { QueueVideoPartitioned(a, p, minimum, hevc); }
    if Timed(QueueAudio(a, p)) { QueueAudioPartitioned(a, p, minimum, hevc); }
  }

  /** Announcing that no more packets come asks for less. */
  lemma LastCall(a: Archive, minimum: nat, hevc: bool)
    requires Sound(a, true, false, minimum, hevc) && Rested(a, true, false)
    ensures Sound(a, true, true, minimum, hevc) && Rested(a, true, true)
  {
  }

  /** Without splitting, a packet goes straight through its queue. */
  lemma PassThrough(a: Archive, p: Packet, minimum: nat, hevc: bool)
    requires Sound(a, false, false, minimum, hevc)
    ensures var b := if p.video then TakeVideo(QueueVideo(a, p)) else TakeAudio(QueueAudio(a, p));
            Sound(b, false, false, minimum, hevc)
  {
    hide Of, Muxed, Shift, Conserved, Timed, Partitioned;
    QueueConserves(a, p);
    if p.video { TakeVideoConserves(QueueVideo(a, p)); } else { TakeAudioConserves(QueueAudio(a, p)); }
  }

  lemma EmptyArchive(split: bool, minimum: nat, hevc: bool)
    ensures var a := Archive([], Part(0, []), [], [], [], []);
            Sound(a, split, false, minimum, hevc) && Rested(a, split, false)
  {
  }

  // ---- the steps of the archive ----

  ghost function QueueVideo(a: Archive, p: Packet): Archive {
    a.(video := a.video + [p], videoIn := a.videoIn + [p])
  }

  ghost function QueueAudio(a: Archive, p: Packet): Archive {
    a.(audio := a.audio + [p], audioIn := a.audioIn + [p])
  }

  ghost function TakeAudio(a: Archive): Archive
    requires a.audio != []
  {
    a.(audio := a.audio[1..],
       current := Part(a.current.origin, a.current.written + [Shift(a.audio[0], a.current.origin)]))
  }

  ghost function TakeVideo(a: Archive): Archive
    requires a.video != []
  {
    a.(video := a.video[1..],
       current := Part(a.current.origin, a.current.written + [Shift(a.video[0], a.current.origin)]))
  }

  ghost function Roll(a: Archive, origin: int): Archive {
    a.(closed := a.closed + [a.current], current := Part(origin, []))
  }

  lemma TakeAudioConserves(a: Archive)
    requires Conserved(a) && a.audio != [] && !a.audio[0].video
    ensures Conserved(TakeAudio(a))
    ensures Of(TakeAudio(a).current, false) == Of(a.current, false) + [a.audio[0]]
    ensures Of(TakeAudio(a).current, true) == Of(a.current, true)
  {
    hide Of, Muxed, Shift;
    OfAppend(a.current, a.audio[0], true);
    OfAppend(a.current, a.audio[0], false);
    assert Of(a.current, true) + [] == Of(a.current, true);
    MoveOne(Muxed(a.closed, false), Of(a.current, false), a.audio, a.audioIn);
  }

  /** The head of a queue goes to the end of what is written. */
  lemma MoveOne(x: seq<Packet>, y: seq<Packet>, z: seq<Packet>, whole: seq<Packet>)
    requires x + y + z == whole && z != []
    ensures x + (y + [z[0]]) + z[1..] == whole
  {
    assert z == [z[0]] + z[1..];
  }

  lemma TakeVideoConserves(a: Archive)
    requires Conserved(a) && a.video != [] && a.video[0].video
    ensures Conserved(TakeVideo(a))
    ensures Of(TakeVideo(a).current, true) == Of(a.current, true) + [a.video[0]]
    ensures Of(TakeVideo(a).current, false) == Of(a.current, false)
  {
    hide Of, Muxed, Shift;
    OfAppend(a.current, a.video[0], true);
    OfAppend(a.current, a.video[0], false);
    assert Of(a.current, false) + [] == Of(a.current, false);
    MoveOne(Muxed(a.closed, true), Of(a.current, true), a.video, a.videoIn);
  }

  lemma RollConserves(a: Archive, origin: int)
    requires Conserved(a)
    ensures Conserved(Roll(a, origin))
  {
  }

  lemma QueueConserves(a: Archive, p: Packet)
    requires Conserved(a)
    ensures Conserved(QueueVideo(a, p)) && Conserved(QueueAudio(a, p))
  {
  }

  /** The queues are suffixes of what came in, so they inherit its timing. */
  lemma QueuesTimed(a: Archive)
    requires Conserved(a) && Timed(a)
    ensures TimedVideo(a.video) && TimedAudio(a.audio)
    ensures TimedVideo(Of(a.current, true)) && TimedAudio(Of(a.current, false))
    ensures a.video != [] ==> a.videoIn != [] && a.videoIn[|a.videoIn| - 1] == a.video[|a.video| - 1]
    ensures a.audio != [] ==> a.audioIn != [] && a.audioIn[|a.audioIn| - 1] == a.audio[|a.audio| - 1]
    ensures a.video != [] && Of(a.current, true) != [] ==>
              Of(a.current, true)[|Of(a.current, true)| - 1].dts < a.video[0].dts
  {
    hide Of, Muxed, TimedVideo, TimedAudio;
    SuffixVideo(Muxed(a.closed, true), Of(a.current, true), a.video, a.videoIn);
    SuffixAudio(Muxed(a.closed, false), Of(a.current, false), a.audio, a.audioIn);
  }

  lemma SuffixVideo(x: seq<Packet>, y: seq<Packet>, z: seq<Packet>, whole: seq<Packet>)
    requires x + y + z == whole && TimedVideo(whole)
    ensures TimedVideo(y) && TimedVideo(z)
    ensures z != [] ==> whole != [] && whole[|whole| - 1] == z[|z| - 1]
    ensures y != [] && z != [] ==> y[|y| - 1].dts < z[0].dts
  {
    hide TimedVideo;
    VideoSlices(x, y, z, whole);
    if y != [] && z != [] {
      Joint(x, y, z, whole);
      VideoOrder(whole, |x| + |y| - 1, |x| + |y|);
    }
  }

  lemma VideoSlices(x: seq<Packet>, y: seq<Packet>, z: seq<Packet>, whole: seq<Packet>)
    requires x + y + z == whole && TimedVideo(whole)
    ensures TimedVideo(y) && TimedVideo(z)
    ensures z != [] ==> whole != [] && whole[|whole| - 1] == z[|z| - 1]
  {
    hide TimedVideo;
    Suffix(x, y, z, whole);
    VideoSlice(whole, |x|, y);
    VideoSlice(whole, |x| + |y|, z);
  }

  lemma Joint(x: seq<Packet>, y: seq<Packet>, z: seq<Packet>, whole: seq<Packet>)
    requires x + y + z == whole && y != [] && z != []
    ensures |x| + |y| < |whole| && whole[|x| + |y| - 1] == y[|y| - 1] && whole[|x| + |y|] == z[0]
  {
  }

  lemma SuffixAudio(x: seq<Packet>, y: seq<Packet>, z: seq<Packet>, whole: seq<Packet>)
    requires x + y + z == whole && TimedAudio(whole)
    ensures TimedAudio(y) && TimedAudio(z)
    ensures z != [] ==> whole != [] && whole[|whole| - 1] == z[|z| - 1]
  {
    hide TimedAudio;
    Suffix(x, y, z, whole);
    AudioSlice(whole, |x|, y);
    AudioSlice(whole, |x| + |y|, z);
  }

  lemma VideoOrder(s: seq<Packet>, i: nat, j: nat)
    requires TimedVideo(s) && i < j < |s|
    ensures s[i].dts < s[j].dts
  {
  }

  lemma VideoSlice(whole: seq<Packet>, from: nat, s: seq<Packet>)
    requires TimedVideo(whole) && from + |s| <= |whole| && forall i :: 0 <= i < |s| ==> s[i] == whole[from + i]
    ensures TimedVideo(s)
  {
  }

  lemma AudioSlice(whole: seq<Packet>, from: nat, s: seq<Packet>)
    requires TimedAudio(whole) && from + |s| <= |whole| && forall i :: 0 <= i < |s| ==> s[i] == whole[from + i]
    ensures TimedAudio(s)
  {
  }

  lemma AudioHead(a: Archive)
    requires Conserved(a) && Timed(a) && a.audio != []
    ensures !a.audio[0].video
  {
    QueuesTimed(a);
  }

  lemma VideoHead(a: Archive)
    requires Conserved(a) && Timed(a) && a.video != []
    ensures a.video[0].video
  {
    QueuesTimed(a);
  }

  lemma Suffix(x: seq<Packet>, y: seq<Packet>, z: seq<Packet>, whole: seq<Packet>)
    requires x + y + z == whole
    ensures forall i :: 0 <= i < |y| ==> y[i] == whole[|x| + i]
    ensures forall i :: 0 <= i < |z| ==> z[i] == whole[|x| + |y| + i]
    ensures |whole| == |x| + |y| + |z|
  {
  }

  /** The finished parts only depend on themselves and on where the open part starts. */
  lemma ClosedFrame(a: Archive, b: Archive, minimum: nat, hevc: bool)
    requires Closed(a, minimum, hevc) && b.closed == a.closed && b.current.origin == a.current.origin
    ensures Closed(b, minimum, hevc)
  {
    assert forall k :: 0 <= k <= |a.closed| ==> Origin(b, k) == Origin(a, k);
  }

  lemma TimedPrefix(a: Archive, p: Packet)
    ensures Timed(QueueVideo(a, p)) ==> Timed(a)
    ensures Timed(QueueAudio(a, p)) ==> Timed(a)
  {
    var v, s := QueueVideo(a, p).videoIn, QueueAudio(a, p).audioIn;
    assert forall i :: 0 <= i < |a.videoIn| ==> v[i] == a.videoIn[i];
    assert forall i :: 0 <= i < |a.audioIn| ==> s[i] == a.audioIn[i];
  }

  lemma FirstOrigin(a: Archive, minimum: nat, hevc: bool)
    requires Closed(a, minimum, hevc)
    ensures |a.closed| == 0 ==> a.current.origin == 0
  {
  }

  // ---- queueing keeps the partition ----

  lemma QueueVideoPartitioned(a: Archive, p: Packet, minimum: nat, hevc: bool)
    requires Timed(a) && Partitioned(a, false, minimum, hevc) && Settled(a, false)
    requires Timed(QueueVideo(a, p))
    ensures Partitioned(QueueVideo(a, p), false, minimum, hevc) && Settled(QueueVideo(a, p), false)
  {
    hide Closed, Of, VideoPart;
    FirstOrigin(a, minimum, hevc);
    var b := QueueVideo(a, p);
    if |a.closed| > 0 {
      var n := |a.videoIn|;
      assert b.videoIn[n - 1] == a.videoIn[n - 1] && b.videoIn[n] == p;
      assert b.videoIn[n - 1].dts < b.videoIn[n].dts;
    } else {
      assert b.videoIn[|a.videoIn|] == p;
    }
    ClosedFrame(a, b, minimum, hevc);
  }

  lemma QueueAudioPartitioned(a: Archive, p: Packet, minimum: nat, hevc: bool)
    requires Timed(a) && Partitioned(a, false, minimum, hevc) && Settled(a, false)
    requires Timed(QueueAudio(a, p))
    ensures Partitioned(QueueAudio(a, p), false, minimum, hevc) && Settled(QueueAudio(a, p), false)
  {
    hide Closed, Of, VideoPart;
    FirstOrigin(a, minimum, hevc);
    var b := QueueAudio(a, p);
    if |a.closed| > 0 {
      var n := |a.audioIn|;
      assert b.audioIn[n - 1] == a.audioIn[n - 1] && b.audioIn[n] == p;
      assert b.audioIn[n - 1].pts < b.audioIn[n].pts;
    } else {
      assert b.audioIn[|a.audioIn|] == p;
    }
    ClosedFrame(a, b, minimum, hevc);
  }

  // ---- one iteration of the drain ----

  /** Audio before the boundary of the next picture belongs to the open part. */
  lemma TakeAudioPartitioned(a: Archive, drained: bool, minimum: nat, hevc: bool)
    requires Conserved(a) && Timed(a) && Partitioned(a, drained, minimum, hevc) && a.audio != []
    ensures a.audio[0].video == false
    ensures Partitioned(TakeAudio(a), drained, minimum, hevc)
  {
    hide Closed, Of, Muxed, VideoPart;
    AudioHead(a);
    TakeAudioConserves(a);
    var b := TakeAudio(a);
    ClosedFrame(a, b, minimum, hevc);
    assert Open(b, drained, hevc) by {
      assert forall p :: p in b.audio ==> p in a.audio;
      assert a.audio[0] in a.audio;
    }
  }

  /** Rolling at a picture no queued picture precedes, once all earlier audio is written. */
  lemma RollPartitioned(a: Archive, drained: bool, minimum: nat, hevc: bool)
    requires Conserved(a) && Timed(a) && Partitioned(a, drained, minimum, hevc)
    requires a.video != [] && a.audio != [] && Of(a.current, true) != []
    requires a.video[0].pts > a.current.origin && a.video[0].pts >= a.current.origin + minimum
    requires Below(Of(a.current, false), a.video[0].pts) && a.audio[0].pts >= a.video[0].pts
    requires forall p :: p in a.video ==> p.pts >= a.video[0].pts
    requires drained || a.video[|a.video| - 1].dts >= a.video[0].pts
    ensures Partitioned(Roll(a, a.video[0].pts), drained, minimum, hevc)
    ensures Of(Roll(a, a.video[0].pts).current, true) == [] && Of(Roll(a, a.video[0].pts).current, false) == []
  {
    hide Closed, Of, Muxed, Below, SafeKey;
    RollCloses(a, drained, minimum, hevc);
    QueuesTimed(a);
    var b := Roll(a, a.video[0].pts);
    EmptyPart(a.video[0].pts);
    forall p | p in a.audio ensures p.pts >= b.current.origin {
      var i :| 0 <= i < |a.audio| && a.audio[i] == p;
      assert i > 0 ==> a.audio[0].pts < a.audio[i].pts;
    }
  }

  lemma EmptyPart(origin: int)
    ensures Of(Part(origin, []), true) == [] == Of(Part(origin, []), false)
  {
  }

  lemma RollCloses(a: Archive, drained: bool, minimum: nat, hevc: bool)
    requires Partitioned(a, drained, minimum, hevc) && a.video != [] && Of(a.current, true) != []
    requires a.video[0].pts > a.current.origin && a.video[0].pts >= a.current.origin + minimum
    requires Below(Of(a.current, false), a.video[0].pts)
    ensures Closed(Roll(a, a.video[0].pts), minimum, hevc)
  {
    hide Of, AudioPart, VideoPart, Below, Open;
    var b := Roll(a, a.video[0].pts);
    var n := |a.closed|;
    CurrentParts(a, drained, minimum, hevc, a.video[0].pts);
    assert forall k :: 0 <= k < n ==> b.closed[k] == a.closed[k];
    assert b.closed[n] == a.current;
    assert forall k :: 0 <= k <= n ==> Origin(b, k) == Origin(a, k);
    assert Origin(b, n + 1) == a.video[0].pts;
  }

  lemma CurrentParts(a: Archive, drained: bool, minimum: nat, hevc: bool, to: int)
    requires Partitioned(a, drained, minimum, hevc) && Of(a.current, true) != []
    requires Below(Of(a.current, false), to)
    ensures AudioPart(Of(a.current, false), a.current.origin, to)
    ensures VideoPart(Of(a.current, true), a.current.origin, |a.closed| == 0, hevc)
  {
    hide Of, Closed;
  }

  /** The picture at the head of the queue joins the open part. */
  lemma TakeVideoPartitioned(a: Archive, drained: bool, minimum: nat, hevc: bool)
    requires Conserved(a) && Timed(a) && Partitioned(a, drained, minimum, hevc) && a.video != []
    requires Below(Of(a.current, false), a.video[0].dts) || (drained && a.audio == [])
    requires Of(a.current, true) == [] && |a.closed| > 0 ==> a.video[0].pts == a.current.origin && SafeKey(a.video[0], hevc)
    ensures a.video[0].video
    ensures Partitioned(TakeVideo(a), drained, minimum, hevc) && Settled(TakeVideo(a), drained)
  {
    hide Closed, Of, Muxed;
    VideoHead(a);
    TakeVideoConserves(a);
    var b := TakeVideo(a);
    ClosedFrame(a, b, minimum, hevc);
    assert Open(b, drained, hevc) by {
      assert forall p :: p in b.video ==> p in a.video;
      assert a.video[0] in a.video;
    }
  }

  // ---- what a finished archive looks like ----

  ghost function Parts(a: Archive): seq<Part> {
    a.closed + [a.current]
  }

  ghost predicate Inside(p: Packet, from: int, to: Option<int>) {
    from <= p.pts && (to.Some? ==> p.pts < to.value)
  }

  ghost function Within(packets: seq<Packet>, from: int, to: Option<int>): seq<Packet> {
    if packets == [] then []
    else Within(packets[..|packets| - 1], from, to) +
         if Inside(packets[|packets| - 1], from, to) then [packets[|packets| - 1]] else []
  }

  lemma {:induction false} WithinConcat(x: seq<Packet>, y: seq<Packet>, from: int, to: Option<int>)
    ensures Within(x + y, from, to) == Within(x, from, to) + Within(y, from, to)
  {
    if y == [] {
      assert x + y == x;
    } else {
      WithinConcat(x, y[..|y| - 1], from, to);
      assert (x + y)[..|x + y| - 1] == x + y[..|y| - 1];
    }
  }

  lemma {:induction false} WithinAll(x: seq<Packet>, from: int, to: Option<int>)
    requires forall i :: 0 <= i < |x| ==> Inside(x[i], from, to)
    ensures Within(x, from, to) == x
  {
    if x != [] {
      WithinAll(x[..|x| - 1], from, to);
      assert x == x[..|x| - 1] + [x[|x| - 1]];
    }
  }

  lemma {:induction false} WithinNone(x: seq<Packet>, from: int, to: Option<int>)
    requires forall i :: 0 <= i < |x| ==> !Inside(x[i], from, to)
    ensures Within(x, from, to) == []
  {
    if x != [] {
      WithinNone(x[..|x| - 1], from, to);
    }
  }

  lemma {:induction false} MuxedConcat(x: seq<Part>, y: seq<Part>, video: bool)
    ensures Muxed(x + y, video) == Muxed(x, video) + Muxed(y, video)
  {
    hide Of;
    if y == [] {
      assert x + y == x;
    } else {
      MuxedConcat(x, y[..|y| - 1], video);
      assert (x + y)[..|x + y| - 1] == x + y[..|y| - 1];
    }
  }

  lemma {:induction false} MuxedMember(parts: seq<Part>, video: bool, p: Packet) returns (k: nat)
    requires p in Muxed(parts, video)
    ensures k < |parts| && p in Of(parts[k], video)
  {
    var n := |parts| - 1;
    if p in Of(parts[n], video) {
      k := n;
    } else {
      k := MuxedMember(parts[..n], video, p);
    }
  }

  lemma {:induction false} MuxedKind(parts: seq<Part>, video: bool)
    ensures forall i :: 0 <= i < |Muxed(parts, video)| ==> Muxed(parts, video)[i].video == video
  {
    if parts != [] {
      MuxedKind(parts[..|parts| - 1], video);
      OfKind(parts[|parts| - 1], video);
    }
  }

  lemma {:induction false} OfKind(part: Part, video: bool)
    ensures forall i :: 0 <= i < |Of(part, video)| ==> Of(part, video)[i].video == video
    decreases |part.written|
  {
    if part.written != [] { OfKind(Part(part.origin, part.written[..|part.written| - 1]), video); }
  }

  function Upper(a: Archive, k: nat): Option<int>
    requires k <= |a.closed|
  {
    if k < |a.closed| then Some(Origin(a, k + 1)) else None
  }

  lemma OneMore(n: nat, m: nat)
    ensures (n + 1) * m == n * m + m
  {
  }

  lemma {:induction false} OriginsIncrease(a: Archive, minimum: nat, hevc: bool, i: nat, j: nat)
    requires Closed(a, minimum, hevc) && i <= j <= |a.closed|
    ensures Origin(a, i) + (j - i) * minimum <= Origin(a, j)
    ensures i < j ==> Origin(a, i) < Origin(a, j)
    decreases j
  {
    hide AudioPart, VideoPart, Of;
    if i < j {
      OriginsIncrease(a, minimum, hevc, i, j - 1);
      assert Origin(a, j - 1) + minimum <= Origin(a, j - 1 + 1);
      OneMore(j - 1 - i, minimum);
    }
  }

  lemma AudioOutside(a: Archive, minimum: nat, hevc: bool, j: nat, k: nat, p: Packet)
    requires Partitioned(a, true, minimum, hevc)
    requires j <= |a.closed| && k <= |a.closed| && j != k && p in Of(Parts(a)[j], false)
    ensures !Inside(p, Origin(a, k), Upper(a, k))
  {
    if j < k {
      assert AudioPart(Of(a.closed[j], false), Origin(a, j), Origin(a, j + 1));
      OriginsIncrease(a, minimum, hevc, j + 1, k);
    } else {
      OriginsIncrease(a, minimum, hevc, k + 1, j);
      if j < |a.closed| {
        assert AudioPart(Of(a.closed[j], false), Origin(a, j), Origin(a, j + 1));
      }
    }
  }

  lemma OriginsApart(a: Archive, minimum: nat, hevc: bool, k: nat)
    requires Partitioned(a, true, minimum, hevc) && k <= |a.closed|
    ensures Parts(a)[0].origin == 0 && Parts(a)[k].origin == Origin(a, k)
    ensures k < |a.closed| ==> Parts(a)[k + 1].origin == Origin(a, k + 1)
    ensures k < |a.closed| ==> Parts(a)[k].origin < Parts(a)[k + 1].origin && Parts(a)[k].origin + minimum <= Parts(a)[k + 1].origin
  {
    hide Of, VideoPart, AudioPart, Open;
  }

  lemma AudioInside(a: Archive, minimum: nat, hevc: bool, k: nat, p: Packet)
    requires Partitioned(a, true, minimum, hevc)
    requires k <= |a.closed| && p in Of(Parts(a)[k], false)
    ensures Inside(p, Origin(a, k), Upper(a, k))
  {
  }

  /** The audio of part k is exactly the accepted audio whose presentation time lies between
      the origin of part k and the origin of part k+1, in the order it was accepted. */
  lemma AudioOfPart(a: Archive, minimum: nat, hevc: bool, k: nat)
    requires Conserved(a) && Partitioned(a, true, minimum, hevc) && a.audio == [] && k <= |a.closed|
    ensures Of(Parts(a)[k], false) == Within(a.audioIn, Origin(a, k), Upper(a, k))
  {
    var from, to := Origin(a, k), Upper(a, k);
    var x, y, z := Muxed(Parts(a)[..k], false), Of(Parts(a)[k], false), Muxed(Parts(a)[k + 1..], false);
    AllMuxed(a, false);
    MuxedAround(Parts(a), k, false);
    WithinConcat(x, y + z, from, to);
    WithinConcat(y, z, from, to);
    forall i | 0 <= i < |x| ensures !Inside(x[i], from, to) {
      var j := MuxedMember(Parts(a)[..k], false, x[i]);
      AudioOutside(a, minimum, hevc, j, k, x[i]);
    }
    forall i | 0 <= i < |z| ensures !Inside(z[i], from, to) {
      var j := MuxedMember(Parts(a)[k + 1..], false, z[i]);
      AudioOutside(a, minimum, hevc, j + k + 1, k, z[i]);
    }
    forall i | 0 <= i < |y| ensures Inside(y[i], from, to) {
      AudioInside(a, minimum, hevc, k, y[i]);
    }
    WithinNone(x, from, to);
    WithinNone(z, from, to);
    WithinAll(y, from, to);
  }

  lemma MuxedAround(parts: seq<Part>, k: nat, video: bool)
    requires k < |parts|
    ensures Muxed(parts, video) == Muxed(parts[..k], video) + (Of(parts[k], video) + Muxed(parts[k + 1..], video))
  {
    assert parts == parts[..k + 1] + parts[k + 1..];
    MuxedConcat(parts[..k + 1], parts[k + 1..], video);
    assert parts[..k + 1] == parts[..k] + [parts[k]];
    MuxedAppend(parts[..k], parts[k], video);
    Associate(Muxed(parts[..k], video), Of(parts[k], video), Muxed(parts[k + 1..], video));
  }

  lemma Associate(x: seq<Packet>, y: seq<Packet>, z: seq<Packet>)
    ensures (x + y) + z == x + (y + z)
  {
  }

  /** With empty queues, the parts one after another are the accepted stream. */
  lemma AllMuxed(a: Archive, video: bool)
    requires Conserved(a) && (if video then a.video else a.audio) == []
    ensures Muxed(Parts(a), video) == if video then a.videoIn else a.audioIn
  {
  }

  /** A part after the first opens with a decodable key picture at its own time zero, holds no
      earlier picture, and the last part is never left without either stream. */
  lemma VideoOfPart(a: Archive, minimum: nat, hevc: bool, k: nat)
    requires Conserved(a) && Partitioned(a, true, minimum, hevc) && Settled(a, true)
    requires a.video == [] && a.audio == [] && k <= |a.closed|
    ensures forall p :: p in Of(Parts(a)[k], true) ==> p.pts >= Origin(a, k)
    ensures k > 0 ==> var v := Of(Parts(a)[k], true);
                      v != [] && v[0].key && (hevc ==> v[0].pts == v[0].dts || v[0].idr) && v[0].pts == Origin(a, k)
    ensures k == |a.closed| && a.videoIn != [] ==> Of(Parts(a)[k], true) != []
    ensures k == |a.closed| && a.audioIn != [] ==> Of(Parts(a)[k], false) != []
  {
    if k < |a.closed| {
      assert VideoPart(Of(a.closed[k], true), Origin(a, k), k == 0, hevc);
    } else {
      LastPart(a, minimum, hevc);
    }
  }

  lemma LastPart(a: Archive, minimum: nat, hevc: bool)
    requires Conserved(a) && Partitioned(a, true, minimum, hevc) && Settled(a, true)
    requires a.video == [] && a.audio == []
    ensures a.videoIn != [] ==> Of(a.current, true) != []
    ensures a.audioIn != [] ==> Of(a.current, false) != []
  {
    hide Of;
    if a.closed == [] {
      assert Muxed(a.closed, true) == [] && Muxed(a.closed, false) == [];
    } else if a.audioIn != [] && Of(a.current, false) == [] {
      var last := a.audioIn[|a.audioIn| - 1];
      assert last in Muxed(a.closed, false);
      var j := MuxedMember(a.closed, false, last);
      AudioOutside(a, minimum, hevc, j, |a.closed|, last);
    }
  }

  // ---- where every packet is ----

  /** A place in the parts' packet lists. */
  datatype Place = Place(part: nat, at: nat) {
    predicate Before(other: Place) {
      part < other.part || (part == other.part && at < other.at)
    }

    predicate Holds(parts: seq<Part>, video: bool) {
      part < |parts| && at < |parts[part].written| && parts[part].written[at].video == video
    }

    /** The packet there, with its absolute times. */
    function Packet(parts: seq<Part>): Packet
      requires part < |parts| && at < |parts[part].written|
    {
      var p, origin := parts[part].written[at], parts[part].origin;
      p.(pts := p.pts + origin, dts := p.dts + origin)
    }
  }

  /** All places of one stream: part by part, and within a part in the order written. */
  ghost predicate Places(parts: seq<Part>, video: bool, places: seq<Place>) {
    && (forall i :: 0 <= i < |places| ==> places[i].Holds(parts, video))
    && (forall i, j :: 0 <= i < j < |places| ==> places[i].Before(places[j]))
    && (forall place: Place :: place.Holds(parts, video) ==> place in places)
  }

  /** The places of one stream within one part. */
  ghost predicate Listed(written: seq<Packet>, video: bool, at: seq<nat>) {
    && (forall i :: 0 <= i < |at| ==> at[i] < |written| && written[at[i]].video == video)
    && (forall i, j :: 0 <= i < j < |at| ==> at[i] < at[j])
    && (forall n :: 0 <= n < |written| && written[n].video == video ==> n in at)
  }

  lemma {:induction false} OfPlaced(part: Part, video: bool) returns (at: seq<nat>)
    ensures |at| == |Of(part, video)| && Listed(part.written, video, at)
    ensures forall i :: 0 <= i < |at| ==> at[i] < |part.written| && Of(part, video)[i] == Restore(part.written[at[i]], part.origin)
    decreases |part.written|
  {
    hide Restore, Listed;
    at := [];
    ListedNone(video);
    if part.written != [] {
      var n := |part.written| - 1;
      at := OfPlaced(Part(part.origin, part.written[..n]), video);
      assert part.written == part.written[..n] + [part.written[n]];
      ListedMore(part.written[..n], video, at, part.written[n]);
      if part.written[n].video == video { at := at + [n]; }
    }
  }

  lemma ListedNone(video: bool)
    ensures Listed([], video, [])
  {
  }

  lemma ListedMore(written: seq<Packet>, video: bool, at: seq<nat>, p: Packet)
    requires Listed(written, video, at)
    ensures Listed(written + [p], video, if p.video == video then at + [|written|] else at)
  {
    var longer, more := written + [p], if p.video == video then at + [|written|] else at;
    assert forall i :: 0 <= i < |written| ==> longer[i] == written[i];
    assert forall i :: 0 <= i < |at| ==> more[i] == at[i] && at[i] < |written| && written[at[i]].video == video;
    forall n | 0 <= n < |longer| && longer[n].video == video ensures n in more {
      if n < |written| {
        var i :| 0 <= i < |at| && at[i] == n;
        assert more[i] == n;
      } else {
        assert more[|at|] == n;
      }
    }
  }

  /** The packets of a stream are those at its places. */
  lemma {:induction false} MuxedPlaced(parts: seq<Part>, video: bool) returns (places: seq<Place>)
    ensures |places| == |Muxed(parts, video)| && Places(parts, video, places)
    ensures forall i :: 0 <= i < |places| ==> Muxed(parts, video)[i] == places[i].Packet(parts)
  {
    hide Of, Places, Listed;
    NoPlaces(video);
    places := [];
    if parts != [] {
      var k := |parts| - 1;
      var before := MuxedPlaced(parts[..k], video);
      PlacesHold(parts[..k], video, before);
      var at := OfPlaced(parts[k], video);
      ListedHold(parts[k].written, video, at);
      PlacesMore(parts, video, before, at);
      places := before + seq(|at|, i requires 0 <= i < |at| => Place(k, at[i]));
      forall i | 0 <= i < |places| ensures places[i].Holds(parts, video) && Muxed(parts, video)[i] == places[i].Packet(parts) {
        if i < |before| { assert places[i] == before[i]; } else { assert places[i] == Place(k, at[i - |before|]); }
      }
    }
  }

  lemma ListedHold(written: seq<Packet>, video: bool, at: seq<nat>)
    requires Listed(written, video, at)
    ensures forall i :: 0 <= i < |at| ==> at[i] < |written| && written[at[i]].video == video
  {
  }

  lemma NoPlaces(video: bool)
    ensures Places([], video, [])
  {
  }

  lemma PlacesHold(parts: seq<Part>, video: bool, places: seq<Place>)
    requires Places(parts, video, places)
    ensures forall i :: 0 <= i < |places| ==> places[i].Holds(parts, video)
  {
  }

  lemma PlacesMore(parts: seq<Part>, video: bool, places: seq<Place>, at: seq<nat>)
    requires parts != [] && Places(parts[..|parts| - 1], video, places) && Listed(parts[|parts| - 1].written, video, at)
    ensures var k: nat := |parts| - 1;
            Places(parts, video, places + seq(|at|, i requires 0 <= i < |at| => Place(k, at[i])))
  {
    var k: nat := |parts| - 1;
    var more := seq(|at|, i requires 0 <= i < |at| => Place(k, at[i]));
    forall place: Place | place.Holds(parts, video) ensures place in places + more {
      if place.part < k {
        assert place.Holds(parts[..k], video);
      } else {
        var i :| 0 <= i < |at| && at[i] == place.at;
        assert more[i] == place;
      }
    }
  }

  // ---- durations ----

  /** The one-packet look-ahead replaces every duration but the last by the distance to the
      next decode time. */
  ghost function Retimed(s: seq<Packet>): (r: seq<Packet>)
    ensures |r| == |s|
  {
    seq(|s|, i requires 0 <= i < |s| => if i + 1 < |s| then s[i].(duration := s[i + 1].dts - s[i].dts) else s[i])
  }

  lemma RetimedAt(s: seq<Packet>, i: nat)
    requires i + 1 < |s|
    ensures Retimed(s)[i].duration == s[i + 1].dts - s[i].dts
  {
  }

  lemma RetimedExactly(s: seq<Packet>)
    ensures |Retimed(s)| == |s|
    ensures forall i :: 0 <= i < |s| ==>
              Retimed(s)[i] == Packet(s[i].video, s[i].pts, s[i].dts, if i + 1 < |s| then s[i + 1].dts - s[i].dts else s[i].duration,
                                      s[i].size, s[i].key, s[i].idr, s[i].payload)
  {
  }

  lemma RetimedKeeps(s: seq<Packet>)
    ensures forall i :: 0 <= i < |s| ==>
              Retimed(s)[i].video == s[i].video && Retimed(s)[i].pts == s[i].pts && Retimed(s)[i].dts == s[i].dts
  {
  }

  lemma RetimedBytes(s: seq<Packet>)
    ensures Bytes(Retimed(s)) == Bytes(s)
  {
    BytesSame(Retimed(s), s);
  }

  lemma RetimedAppend(s: seq<Packet>, p: Packet)
    ensures s == [] ==> Retimed(s + [p]) == [p]
    ensures s != [] ==>
              (Retimed(s + [p]) == Retimed(s)[..|s| - 1] + [s[|s| - 1].(duration := p.dts - s[|s| - 1].dts), p])
  {
  }

  /** The held packet is released with its duration and the next one is held in its place. */
  lemma LookaheadStep(released: seq<Packet>, held: Packet, s: seq<Packet>, p: Packet)
    requires released + [held] == Retimed(s)
    ensures released + [held.(duration := p.dts - held.dts)] + [p] == Retimed(s + [p])
  {
    RetimedAppend(s, p);
    assert held == Retimed(s)[|s| - 1] == s[|s| - 1];
    assert released == Retimed(s)[..|s| - 1];
  }

  ghost function Lasting(s: seq<Packet>): int {
    if s == [] then 0 else Lasting(s[..|s| - 1]) + s[|s| - 1].duration
  }

  /** Durations telescope: a run of pictures lasts exactly until the next decode time. */
  lemma {:induction false} DurationsTelescope(s: seq<Packet>, n: nat)
    requires n < |s|
    ensures Lasting(Retimed(s)[..n]) == s[n].dts - s[0].dts
  {
    if n > 0 {
      DurationsTelescope(s, n - 1);
      assert Retimed(s)[..n][..n - 1] == Retimed(s)[..n - 1];
    }
  }
}
