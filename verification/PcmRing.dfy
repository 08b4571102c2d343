/**
  The PCM mailbox between capture and playback: a circular array of interleaved samples that
  discards the oldest frames when it is full.
*/
module PcmRing {

  /** `n` samples of a circular buffer from position `from` on. */
  ghost function Wrapped(s: seq<int>, from: nat, n: nat): (w: seq<int>)
    requires from <= |s| && n <= |s|
    ensures |w| == n
  {
    if from + n <= |s| then s[from..from + n] else s[from..] + s[..from + n - |s|]
  }

  /** The last `n` samples of `s`. */
  ghost function Newest(s: seq<int>, n: nat): seq<int> {
    if |s| <= n then s else s[|s| - n..]
  }

  function Around(i: nat, size: nat): nat {
    if i < size then i else i - size
  }

  lemma WrappedAt(s: seq<int>, from: nat, n: nat, i: nat)
    requires from < |s| && n <= |s| && i < n
    ensures Wrapped(s, from, n)[i] == s[Around(from + i, |s|)]
  {
  }

  /** How far position `k` lies behind position `w`, going round. */
  function Behind(k: nat, w: nat, size: nat): int {
    if w <= k then k - w else k - w + size
  }

  /** `t` is `s` with `x` stored from position `w` on, going round. */
  ghost predicate StoredAt(s: seq<int>, w: nat, x: seq<int>, t: seq<int>) {
    && w < |s| == |t| && |x| <= |s|
    && forall k :: 0 <= k < |s| ==> t[k] == var i := Behind(k, w, |s|); if i < |x| then x[i] else s[k]
  }

  /** Storing at the write position appends to the contents, whether or not it wraps. */
  lemma WrappedAppend(s: seq<int>, from: nat, n: nat, x: seq<int>, t: seq<int>)
    requires from < |s| && n + |x| <= |s| && StoredAt(s, Around(from + n, |s|), x, t)
    ensures Wrapped(t, from, n + |x|) == Wrapped(s, from, n) + x
  {
    assert |t| == |s|;
    hide Wrapped, StoredAt, Around, Behind;
    var after, before := Wrapped(t, from, n + |x|), Wrapped(s, from, n);
    forall i | 0 <= i < n + |x| ensures after[i] == if i < n then before[i] else x[i - n] {
      WrappedAt(t, from, n + |x|, i);
      StoredPlace(s, from, n, x, t, i);
      if i < n { WrappedAt(s, from, n, i); }
    }
  }

  lemma StoredPlace(s: seq<int>, from: nat, n: nat, x: seq<int>, t: seq<int>, i: nat)
    requires from < |s| && n + |x| <= |s| && StoredAt(s, Around(from + n, |s|), x, t) && i < n + |x|
    ensures |t| == |s| && t[Around(from + i, |s|)] == if i < n then s[Around(from + i, |s|)] else x[i - n]
  {
  }

  /** Advancing the read position drops the oldest samples. */
  lemma WrappedDrop(s: seq<int>, from: nat, n: nat, d: nat)
    requires from < |s| && d <= n <= |s|
    ensures Wrapped(s, Around(from + d, |s|), n - d) == Wrapped(s, from, n)[d..]
  {
    hide Wrapped, Around;
    AroundAfter(from, n, d, |s|);
    var after, before := Wrapped(s, Around(from + d, |s|), n - d), Wrapped(s, from, n);
    forall i | 0 <= i < n - d ensures after[i] == before[d..][i] {
      WrappedAt(s, Around(from + d, |s|), n - d, i);
      WrappedAt(s, from, n, d + i);
      AroundTwice(from, d, i, |s|);
    }
  }

  lemma NewestAppend(before: seq<int>, x: seq<int>, n: nat, kept: seq<int>)
    requires |x| <= n && |before| <= n && kept == Newest(before, n - |x|)
    ensures Newest(before + x, n) == kept + x
  {
  }

  lemma NewestNothing(before: seq<int>, kept: seq<int>)
    requires kept == Newest(before, 0)
    ensures kept == [] && forall x: seq<int> :: kept + x == x
  {
  }

  lemma NewestOnly(before: seq<int>, x: seq<int>, n: nat)
    requires |x| >= n
    ensures Newest(before + x, n) == x[|x| - n..]
  {
  }

  lemma Scale(a: nat, b: nat, channels: nat)
    ensures (a + b) * channels == a * channels + b * channels
    ensures a <= b ==> a * channels <= b * channels && (b - a) * channels == b * channels - a * channels
    ensures a < b && channels > 0 ==> a * channels < b * channels
  {
  }

  lemma FrameFits(i: nat, size: nat, channels: nat)
    requires i < size
    ensures i * channels + channels <= size * channels
  {
    Scale(i, 1, channels);
    Scale(i + 1, size, channels);
  }

  lemma AroundScaled(i: nat, size: nat, channels: nat)
    requires i < 2 * size && channels > 0
    ensures Around(i, size) * channels == Around(i * channels, size * channels) < size * channels
  {
    if i < size {
      Scale(i, size, channels);
    } else {
      Scale(size, i, channels);
      Scale(i - size, size, channels);
    }
  }

  lemma AroundIsModulo(i: nat, size: nat)
    requires i < 2 * size
    ensures i % size == Around(i, size)
  {
  }

  lemma AroundTwice(r: nat, a: nat, f: nat, size: nat)
    requires r < size && a + f <= size
    ensures Around(r + a, size) < size
    ensures Around(Around(r + a, size) + f, size) == Around(r + a + f, size)
  {
  }

  lemma AroundAfter(r: nat, a: nat, d: nat, size: nat)
    requires r < size && d <= a <= size
    ensures Around(r + d, size) < size
    ensures Around(Around(r + d, size) + (a - d), size) == Around(r + a, size)
  {
  }

  /** Device frames converted one after another. */
  ghost function Converted(blocks: seq<seq<int>>, convert: seq<int> -> seq<int>): seq<int> {
    if blocks == [] then [] else Converted(blocks[..|blocks| - 1], convert) + convert(blocks[|blocks| - 1])
  }

  lemma ConvertedAppend(blocks: seq<seq<int>>, block: seq<int>, convert: seq<int> -> seq<int>)
    ensures Converted([], convert) == []
    ensures Converted(blocks + [block], convert) == Converted(blocks, convert) + convert(block)
  {
    assert (blocks + [block])[..|blocks|] == blocks;
  }

  lemma {:induction false} ConvertedLength(blocks: seq<seq<int>>, convert: seq<int> -> seq<int>, channels: nat)
    requires forall block: seq<int> :: |convert(block)| == channels
    ensures |Converted(blocks, convert)| == |blocks| * channels
  {
    if blocks != [] {
      Scale(|blocks| - 1, 1, channels);
      ConvertedLength(blocks[..|blocks| - 1], convert, channels);
    }
  }

  /** Every block's conversion is in its place. */
  lemma {:induction false} ConvertedAt(blocks: seq<seq<int>>, convert: seq<int> -> seq<int>, channels: nat, i: nat)
    requires i < |blocks| && forall block: seq<int> :: |convert(block)| == channels
    ensures 0 <= i * channels <= i * channels + channels <= |Converted(blocks, convert)|
    ensures Converted(blocks, convert)[i * channels..i * channels + channels] == convert(blocks[i])
    decreases |blocks|
  {
    hide Converted;
    var n := |blocks| - 1;
    assert blocks == blocks[..n] + [blocks[n]];
    ConvertedAppend(blocks[..n], blocks[n], convert);
    ConvertedLength(blocks[..n], convert, channels);
    if i < n {
      ConvertedAt(blocks[..n], convert, channels, i);
    }
  }

  /** Converting the tail of the input gives the tail of the conversion. */
  lemma {:induction false} ConvertedConcat(x: seq<seq<int>>, y: seq<seq<int>>, convert: seq<int> -> seq<int>)
    ensures Converted(x + y, convert) == Converted(x, convert) + Converted(y, convert)
  {
    hide Converted;
    ConvertedAppend([], [], convert);
    if y == [] {
      assert x + y == x;
    } else {
      var front, last := y[..|y| - 1], y[|y| - 1];
      ConvertedConcat(x, front, convert);
      ConvertedAppend(x + front, last, convert);
      ConvertedAppend(front, last, convert);
      assert y == front + [last] && x + y == x + front + [last];
      Regroup(Converted(x, convert), Converted(front, convert), convert(last));
    }
  }

  lemma Regroup(a: seq<int>, b: seq<int>, c: seq<int>)
    ensures a + b + c == a + (b + c)
  {
  }

  lemma NewestConverted(before: seq<int>, blocks: seq<seq<int>>, capacity: nat, convert: seq<int> -> seq<int>, channels: nat)
    requires |blocks| >= capacity && forall block: seq<int> :: |convert(block)| == channels
    ensures Newest(before + Converted(blocks, convert), capacity * channels) == Converted(blocks[|blocks| - capacity..], convert)
  {
    hide Converted, Newest;
    var k := |blocks| - capacity;
    assert blocks == blocks[..k] + blocks[k..];
    ConvertedConcat(blocks[..k], blocks[k..], convert);
    ConvertedLength(blocks[k..], convert, channels);
    NewestOnly(before, Converted(blocks, convert), capacity * channels);
    Tail(Converted(blocks[..k], convert), Converted(blocks[k..], convert));
  }

  lemma Tail(a: seq<int>, b: seq<int>)
    ensures (a + b)[|a + b| - |b|..] == b
  {
  }

  lemma NothingStored(s: seq<int>, w: nat)
    requires w < |s|
    ensures StoredAt(s, w, [], s)
  {
  }

  lemma StoredMore(s: seq<int>, w: nat, x: seq<int>, t: seq<int>, y: seq<int>, at: nat, u: seq<int>)
    requires StoredAt(s, w, x, t) && |x| + |y| <= |s| && at == Around(w + |x|, |s|) && at + |y| <= |s|
    requires u == t[..at] + y + t[at + |y|..]
    ensures StoredAt(s, w, x + y, u)
  {
  }

  class Ring {
    const capacityFrames: nat
    const hasObserver: bool
    var channels: nat
    var data: array<int>
    var readFrame: nat
    var writeFrame: nat
    var available: nat
    var overruns: nat
    var publishedFrames: nat

    /** Frames pushed, popped and discarded since the ring was last emptied by its owner, and
        the discarded ones that were reported to the observer. */
    ghost var pushed: nat
    ghost var popped: nat
    ghost var dropped: nat
    ghost var reported: nat

    ghost predicate Valid()
      reads this
    {
      && capacityFrames > 0 && (channels == 2 || channels == 6)
      && data.Length == capacityFrames * channels
      && readFrame < capacityFrames && available <= capacityFrames
      && writeFrame == Around(readFrame + available, capacityFrames)
      && pushed == popped + dropped + available
      && reported == (if hasObserver then dropped else 0)
    }

    ghost function Contents(): seq<int>
      reads this, data
      requires Valid()
    {
      Bounds();
      Wrapped(data[..], readFrame * channels, available * channels)
    }

    lemma Bounds()
      requires Valid()
      ensures readFrame * channels < data.Length && available * channels <= data.Length
    {
      Scale(readFrame, capacityFrames, channels);
      Scale(available, capacityFrames, channels);
    }

    constructor (capacity: nat, observed: bool)
      ensures Valid() && Contents() == [] && channels == 2 && fresh(data)
      ensures capacityFrames == if capacity == 0 then 1 else capacity
      ensures pushed == popped == dropped == 0 && publishedFrames == 0
    {
      capacityFrames := if capacity == 0 then 1 else capacity;
      hasObserver := observed;
      channels, data := 2, new int[(if capacity == 0 then 1 else capacity) * 2](_ => 0);
      readFrame, writeFrame, available, overruns, publishedFrames := 0, 0, 0, 0, 0;
      pushed, popped, dropped, reported := 0, 0, 0, 0;
    }

    method PublishAvailable()
      modifies `publishedFrames
      ensures publishedFrames == if available < 0xFFFF_FFFF then available else 0xFFFF_FFFF
    {
      publishedFrames := if available < 0xFFFF_FFFF then available else 0xFFFF_FFFF;
    }

    /** Reports discarded frames; the observer decides whether it counts as an overrun. */
    method Report(frames: nat)
      modifies `overruns, `dropped, `reported
      ensures dropped == old(dropped) + frames && overruns <= old(overruns) + 1
      ensures reported == old(reported) + (if hasObserver then frames else 0)
      ensures !hasObserver ==> overruns == old(overruns)
    {
      dropped := dropped + frames;
      if hasObserver {
        reported := reported + frames;
        var counts := *;
        if counts { overruns := overruns + 1; }
      }
    }

    /** A batch that fills the ring by itself replaces everything. */
    method DiscardAll(frames: nat)
      requires Valid() && frames >= capacityFrames
      modifies `readFrame, `writeFrame, `available, `pushed, `overruns, `dropped, `reported
      ensures Valid() && available == 0 && Contents() == []
      ensures pushed + capacityFrames == old(pushed) + frames
    {
      var discarded := available + (frames - capacityFrames);
      if discarded > 0 { Report(discarded); }
      readFrame, writeFrame, available := 0, 0, 0;
      pushed := pushed + (frames - capacityFrames);
    }

    /** Makes room for `frames` more, discarding the oldest; returns how many will be stored. */
    method PrepareWrite(frames: nat) returns (n: nat)
      requires Valid()
      modifies `readFrame, `writeFrame, `available, `pushed, `overruns, `dropped, `reported
      ensures Valid()
      ensures n == (if frames >= capacityFrames then capacityFrames else frames) && available + n <= capacityFrames
      ensures Contents() == Newest(old(Contents()), (capacityFrames - n) * channels)
      ensures pushed + n == old(pushed) + frames
    {
      hide Wrapped;
      if frames >= capacityFrames {
        DiscardAll(frames);
        return capacityFrames;
      }
      while available + frames > capacityFrames
        invariant Valid() && pushed == old(pushed) && writeFrame == old(writeFrame)
        invariant available == old(available) || available + frames == capacityFrames
        invariant available <= old(available)
        invariant Contents() == old(Contents())[|old(Contents())| - |Contents()|..] && |Contents()| <= |old(Contents())|
        decreases available
      {
        var drop := if available + frames - capacityFrames < available then available + frames - capacityFrames else available;
        Bounds();
        Scale(drop, available, channels);
        DropOldest(drop);
      }
      Bounds();
      Scale(available, capacityFrames - frames, channels);
      Scale(available, old(available), channels);
      return frames;
    }

    lemma ContentsWithout(drop: nat)
      requires Valid() && drop <= available
      ensures Around(readFrame + drop, capacityFrames) * channels <= data.Length
      ensures (available - drop) * channels <= data.Length && drop * channels <= |Contents()|
      ensures Wrapped(data[..], Around(readFrame + drop, capacityFrames) * channels, (available - drop) * channels)
           == Contents()[drop * channels..]
    {
      hide Wrapped, Around;
      Bounds();
      Scale(drop, available, channels);
      AroundScaled(readFrame + drop, capacityFrames, channels);
      Scale(readFrame, drop, channels);
      WrappedDrop(data[..], readFrame * channels, available * channels, drop * channels);
    }

    method DropOldest(drop: nat)
      requires Valid() && 0 < drop <= available
      modifies `readFrame, `available, `overruns, `dropped, `reported
      ensures Valid() && available == old(available) - drop
      ensures Contents() == old(Contents())[drop * channels..]
    {
      hide Wrapped;
      ContentsWithout(drop);
      AroundIsModulo(readFrame + drop, capacityFrames);
      readFrame := (readFrame + drop) % capacityFrames;
      available := available - drop;
      Report(drop);
    }

    /** The write position, in samples, is where the contents end. */
    lemma WritePosition()
      requires Valid()
      ensures writeFrame < capacityFrames
      ensures writeFrame * channels == Around(readFrame * channels + available * channels, data.Length) < data.Length
    {
      AroundScaled(readFrame + available, capacityFrames, channels);
      Scale(readFrame, available, channels);
    }

    /** Stores frames behind the contents, in at most two contiguous copies. */
    method Append(samples: seq<int>, frames: nat)
      requires Valid() && available + frames <= capacityFrames && |samples| == frames * channels
      modifies data, `writeFrame, `available, `pushed
      ensures Valid() && available == old(available) + frames && pushed == old(pushed) + frames
      ensures Contents() == old(Contents()) + samples
    {
      hide Wrapped, StoredAt, Around;
      WritePosition();
      var first := if frames < capacityFrames - writeFrame then frames else capacityFrames - writeFrame;
      CopySpans(samples, frames, first);
      AdvanceWrite(frames, old(data[..]), samples);
    }

    /** What is stored at the write position continues the contents. */
    lemma Appended(was: seq<int>, samples: seq<int>, frames: nat)
      requires Valid() && available + frames <= capacityFrames && |samples| == frames * channels
      requires |was| == data.Length && StoredAt(was, writeFrame * channels, samples, data[..])
      ensures readFrame * channels <= |was| && available * channels <= |was| && (available + frames) * channels <= |was|
      ensures Wrapped(data[..], readFrame * channels, (available + frames) * channels)
           == Wrapped(was, readFrame * channels, available * channels) + samples
    {
      hide Around, Wrapped, StoredAt;
      Bounds();
      WritePosition();
      Scale(available, frames, channels);
      Scale(available + frames, capacityFrames, channels);
      WrappedAppend(was, readFrame * channels, available * channels, samples, data[..]);
    }

    /** Counts frames that have been stored behind the contents, which end with them now. */
    method AdvanceWrite(frames: nat, ghost was: seq<int>, ghost samples: seq<int>)
      requires Valid() && available + frames <= capacityFrames && |samples| == frames * channels
      requires |was| == data.Length && StoredAt(was, writeFrame * channels, samples, data[..])
      modifies `writeFrame, `available, `pushed
      ensures Valid() && available == old(available) + frames && pushed == old(pushed) + frames
      ensures readFrame * channels <= |was| && old(available) * channels <= |was|
      ensures Contents() == Wrapped(was, readFrame * channels, old(available) * channels) + samples
    {
      hide Around, Wrapped, StoredAt;
      Appended(was, samples, frames);
      AroundTwice(readFrame, available, frames, capacityFrames);
      AroundIsModulo(writeFrame + frames, capacityFrames);
      writeFrame := (writeFrame + frames) % capacityFrames;
      available, pushed := available + frames, pushed + frames;
    }

    /** The two spans of a write, in samples. */
    lemma WriteSpans(frames: nat, first: nat)
      requires Valid() && frames <= capacityFrames
      requires first == if frames < capacityFrames - writeFrame then frames else capacityFrames - writeFrame
      ensures writeFrame * channels < data.Length && frames * channels <= data.Length && first * channels <= frames * channels
      ensures writeFrame * channels + first * channels <= data.Length
      ensures first == frames || writeFrame * channels + first * channels == data.Length
    {
      Scale(first, frames, channels);
      Scale(writeFrame, capacityFrames, channels);
      Scale(first, capacityFrames - writeFrame, channels);
      Scale(frames, capacityFrames, channels);
    }

    method CopySpans(samples: seq<int>, frames: nat, first: nat)
      requires Valid() && frames <= capacityFrames && |samples| == frames * channels
      requires first == if frames < capacityFrames - writeFrame then frames else capacityFrames - writeFrame
      modifies data
      ensures StoredAt(old(data[..]), writeFrame * channels, samples, data[..])
    {
      hide StoredAt, Around;
      WriteSpans(frames, first);
      CopyTwo(samples, writeFrame * channels, first * channels);
    }

    method CopyTwo(samples: seq<int>, w: nat, n: nat)
      requires w < data.Length && n <= |samples| <= data.Length
      requires w + n <= data.Length && (n == |samples| || w + n == data.Length)
      modifies data
      ensures StoredAt(old(data[..]), w, samples, data[..])
    {
      hide StoredAt;
      Copy(samples[..n], w);
      ghost var half := data[..];
      Copy(samples[n..], 0);
      TwoSpans(old(data[..]), w, samples, n, half, data[..]);
    }

    /** A contiguous copy into the buffer. */
    method Copy(x: seq<int>, at: nat)
      requires at + |x| <= data.Length
      modifies data
      ensures data[..] == old(data[..])[..at] + x + old(data[..])[at + |x|..]
    {
      forall i | 0 <= i < |x| { data[at + i] := x[i]; }
    }

    /** Pushing keeps the newest samples that fit. */
    method Push(samples: seq<int>, frames: nat)
      requires Valid() && |samples| == frames * channels
      modifies this, data
      ensures Valid() && channels == old(channels) && data == old(data) && popped == old(popped)
      ensures var all, room := old(Contents()) + samples, capacityFrames * channels;
              Contents() == if |all| <= room then all else all[|all| - room..]
      ensures pushed == old(pushed) + frames
      ensures frames > 0 ==> publishedFrames == if available < 0xFFFF_FFFF then available else 0xFFFF_FFFF
    {
      hide Wrapped, Around;
      if frames == 0 {
        AllFits();
        assert Contents() + samples == Contents();
        return;
      }
      PushSome(samples, frames);
      PublishAvailable();
    }

    lemma AllFits()
      requires Valid()
      ensures Newest(Contents(), capacityFrames * channels) == Contents()
    {
      hide Wrapped, Around;
      Bounds();
    }

    method PushSome(samples: seq<int>, frames: nat)
      requires Valid() && frames > 0 && |samples| == frames * channels
      modifies data, `readFrame, `writeFrame, `available, `pushed, `overruns, `dropped, `reported
      ensures Valid() && pushed == old(pushed) + frames
      ensures Contents() == Newest(old(Contents()) + samples, capacityFrames * channels)
    {
      hide Wrapped, Around, Newest;
      Bounds();
      var kept := samples;
      if frames >= capacityFrames {
        Scale(capacityFrames, frames, channels);
        kept := samples[(frames - capacityFrames) * channels..];
        NewestOnly(Contents(), samples, capacityFrames * channels);
      }
      var n := PrepareWrite(frames);
      if n < capacityFrames {
        Scale(n, capacityFrames, channels);
        NewestAppend(old(Contents()), samples, capacityFrames * channels, Contents());
      } else {
        NewestNothing(old(Contents()), Contents());
      }
      Append(kept, n);
    }

    /** Pushing frames in a device format converts each frame into its own place. */
    method PushConverted(blocks: seq<seq<int>>, blockAlign: nat, surround: bool, convert: seq<int> -> seq<int>)
      requires Valid()
      requires (channels == 6) == surround ==> forall block: seq<int> :: |convert(block)| == channels
      modifies this, data
      ensures Valid() && channels == old(channels) && data == old(data) && popped == old(popped)
      ensures blockAlign == 0 || (channels == 6) != surround ==> Contents() == old(Contents()) && pushed == old(pushed)
      ensures blockAlign > 0 && (channels == 6) == surround ==>
                && |Converted(blocks, convert)| == |blocks| * channels
                && (var all, room := old(Contents()) + Converted(blocks, convert), capacityFrames * channels;
                    Contents() == if |all| <= room then all else all[|all| - room..])
                && pushed == old(pushed) + |blocks|
                && (blocks != [] ==> publishedFrames == if available < 0xFFFF_FFFF then available else 0xFFFF_FFFF)
    {
      hide Wrapped, Around, Converted;
      if (channels == 6) == surround { ConvertedLength(blocks, convert, channels); }
      ConvertedAppend([], [], convert);
      Bounds();
      if blocks == [] || blockAlign == 0 {
        assert Contents() + [] == Contents();
        return;
      }
      if (channels == 6) != surround { return; }
      StoreConverted(blocks, convert);
      PublishAvailable();
    }

    method StoreConverted(blocks: seq<seq<int>>, convert: seq<int> -> seq<int>)
      requires Valid() && forall block: seq<int> :: |convert(block)| == channels
      modifies data, `readFrame, `writeFrame, `available, `pushed, `overruns, `dropped, `reported
      ensures Valid() && pushed == old(pushed) + |blocks|
      ensures Contents() == Newest(old(Contents()) + Converted(blocks, convert), capacityFrames * channels)
    {
      hide Wrapped, Around, Converted, Newest;
      Bounds();
      ConvertedLength(blocks, convert, channels);
      var kept := blocks;
      if |blocks| >= capacityFrames {
        kept := blocks[|blocks| - capacityFrames..];
        NewestConverted(Contents(), blocks, capacityFrames, convert, channels);
      }
      var n := PrepareWrite(|blocks|);
      if n < capacityFrames {
        Scale(n, capacityFrames, channels);
        NewestAppend(old(Contents()), Converted(blocks, convert), capacityFrames * channels, Contents());
      } else {
        NewestNothing(old(Contents()), Contents());
      }
      AppendConverted(kept, convert);
    }

    method AppendConverted(blocks: seq<seq<int>>, convert: seq<int> -> seq<int>)
      requires Valid() && available + |blocks| <= capacityFrames
      requires forall block: seq<int> :: |convert(block)| == channels
      modifies data, `writeFrame, `available, `pushed
      ensures Valid() && available == old(available) + |blocks| && pushed == old(pushed) + |blocks|
      ensures Contents() == old(Contents()) + Converted(blocks, convert)
    {
      hide Wrapped, StoredAt, Around, Converted;
      ConvertEach(blocks, convert);
      ConvertedLength(blocks, convert, channels);
      AdvanceWrite(|blocks|, old(data[..]), Converted(blocks, convert));
    }

    method ConvertEach(blocks: seq<seq<int>>, convert: seq<int> -> seq<int>)
      requires Valid() && |blocks| <= capacityFrames
      requires forall block: seq<int> :: |convert(block)| == channels
      modifies data
      ensures StoredAt(old(data[..]), writeFrame * channels, Converted(blocks, convert), data[..])
    {
      hide Wrapped, StoredAt, Around, Converted;
      WritePosition();
      AroundTwice(readFrame, available, 0, capacityFrames);
      ConvertedAppend([], [], convert);
      NothingStored(data[..], writeFrame * channels);
      for i := 0 to |blocks|
        invariant StoredAt(old(data[..]), writeFrame * channels, Converted(blocks[..i], convert), data[..])
      {
        ghost var before := data[..];
        var frame := convert(blocks[i]);
        FramePlace(i);
        var destination := (writeFrame + i) % capacityFrames * channels;
        Copy(frame, destination);
        ConvertedLength(blocks[..i], convert, channels);
        StoredMore(old(data[..]), writeFrame * channels, Converted(blocks[..i], convert), before, frame, destination, data[..]);
        assert blocks[..i + 1] == blocks[..i] + [blocks[i]];
        ConvertedAppend(blocks[..i], blocks[i], convert);
      }
      assert blocks[..|blocks|] == blocks;
    }

    /** The place of frame `i` of a batch: behind the ones before it, and never split. */
    lemma FramePlace(i: nat)
      requires Valid() && i < capacityFrames && writeFrame < capacityFrames
      ensures (writeFrame + i) % capacityFrames * channels == Around(writeFrame * channels + i * channels, data.Length)
      ensures (writeFrame + i) % capacityFrames * channels + channels <= data.Length
      ensures i * channels + channels <= data.Length
    {
      hide Around;
      AroundIsModulo(writeFrame + i, capacityFrames);
      AroundScaled(writeFrame + i, capacityFrames, channels);
      Scale(writeFrame, i, channels);
      FrameFits(i, capacityFrames, channels);
      FrameFits(Around(writeFrame + i, capacityFrames), capacityFrames, channels);
    }

    /** The two spans of a read, in samples. */
    lemma ReadSpans(count: nat, first: nat)
      requires Valid() && count <= available
      requires first == if count < capacityFrames - readFrame then count else capacityFrames - readFrame
      ensures count * channels <= available * channels && (count - first) * channels == count * channels - first * channels
      ensures first * channels == (if count * channels < data.Length - readFrame * channels then count * channels
                                   else data.Length - readFrame * channels)
    {
      hide Around;
      Scale(count, available, channels);
      Scale(first, count, channels);
      Scale(readFrame, capacityFrames, channels);
      Scale(count, capacityFrames - readFrame, channels);
      Scale(capacityFrames - readFrame, count, channels);
    }

    /** The oldest frames, in at most two contiguous copies. */
    method Oldest(count: nat) returns (output: seq<int>)
      requires Valid() && count <= available
      ensures count * channels <= |Contents()| && output == Contents()[..count * channels]
    {
      hide Wrapped;
      Bounds();
      var first := if count < capacityFrames - readFrame then count else capacityFrames - readFrame;
      ReadSpans(count, first);
      output := data[readFrame * channels..readFrame * channels + first * channels] + data[..(count - first) * channels];
      TwoParts(data[..], readFrame * channels, available * channels, first * channels, count * channels);
    }

    /** Popping takes as many of the oldest frames as there are. */
    method Pop(frames: nat) returns (output: seq<int>, count: nat)
      requires Valid()
      modifies `readFrame, `available, `popped, `publishedFrames
      ensures Valid() && count == (if frames < old(available) then frames else old(available))
      ensures count * channels <= |old(Contents())|
      ensures output == old(Contents())[..count * channels] && Contents() == old(Contents())[count * channels..]
      ensures popped == old(popped) + count && available == old(available) - count
      ensures publishedFrames == if frames == 0 then old(publishedFrames) else if available < 0xFFFF_FFFF then available else 0xFFFF_FFFF
    {
      hide Wrapped, Around;
      Bounds();
      if frames == 0 { return [], 0; }
      count := if frames < available then frames else available;
      output := Oldest(count);
      ContentsWithout(count);
      AroundIsModulo(readFrame + count, capacityFrames);
      AroundAfter(readFrame, available, count, capacityFrames);
      readFrame := (readFrame + count) % capacityFrames;
      available, popped := available - count, popped + count;
      PublishAvailable();
    }

    method Clear()
      requires Valid()
      modifies `readFrame, `writeFrame, `available, `publishedFrames, `pushed, `popped, `dropped, `reported
      ensures Valid() && Contents() == [] && publishedFrames == 0
      ensures pushed == popped == dropped == 0
    {
      readFrame, writeFrame, available := 0, 0, 0;
      pushed, popped, dropped, reported := 0, 0, 0, 0;
      PublishAvailable();
    }

    /** Only before anyone uses the ring: another channel count starts with an empty buffer. */
    method ConfigureChannels(count: nat)
      requires Valid() && (count == 2 || count == 6)
      modifies this
      ensures Valid() && channels == count && Contents() == [] && fresh(data)
    {
      channels, data := count, new int[capacityFrames * count](_ => 0);
      Clear();
    }
  }

  lemma TwoSpans(s: seq<int>, w: nat, x: seq<int>, n: nat, half: seq<int>, t: seq<int>)
    requires w < |s| && n <= |x| <= |s| && w + n <= |s| && (n == |x| || w + n == |s|)
    requires half == s[..w] + x[..n] + s[w + n..]
    requires t == x[n..] + half[|x| - n..]
    ensures StoredAt(s, w, x, t)
  {
  }

  lemma TwoParts(s: seq<int>, from: nat, n: nat, first: nat, count: nat)
    requires from < |s| && count <= n <= |s| && first <= count
    requires first == if count < |s| - from then count else |s| - from
    ensures s[from..from + first] + s[..count - first] == Wrapped(s, from, n)[..count]
  {
  }
}
