/**
  Audio packets longer than 100 ms are delivered in chunks of 100 ms. All chunks of a packet
  become visible to the worker with one store of the write index, or none does.
*/
module AudioChunks {
  import opened Wrappers
  import opened BufferPool
  import opened SampleClock
  import Admission

  const CHUNK_BYTES: nat := 19200
  const INT64_MAX: int := 0x7FFF_FFFF_FFFF_FFFF

  datatype Error = InvalidInput | QueueFull | OutOfLeases | CopyFailed
  datatype Slot = Slot(lease: Option<nat>, time: int, duration: int, generation: nat, bytes: seq<int>)

  // ---- what a packet is cut into: stereo PCM16, four bytes a frame ----

  function Pieces(length: nat): nat {
    (length + CHUNK_BYTES - 1) / CHUNK_BYTES
  }

  function Piece(data: seq<int>, i: nat): seq<int>
    requires i < Pieces(|data|)
  {
    if (i + 1) * CHUNK_BYTES <= |data| then data[i * CHUNK_BYTES..(i + 1) * CHUNK_BYTES] else data[i * CHUNK_BYTES..]
  }

  function PieceTime(start: int, i: nat): int {
    start + Ticks(i * CHUNK_BYTES / 4)
  }

  function PieceTicks(data: seq<int>, i: nat): int
    requires i < Pieces(|data|)
  {
    Ticks(|Piece(data, i)| / 4)
  }

  ghost function Joined(data: seq<int>, n: nat): seq<int>
    requires n <= Pieces(|data|)
  {
    if n == 0 then [] else Joined(data, n - 1) + Piece(data, n - 1)
  }

  lemma {:induction false} JoinedPrefix(data: seq<int>, n: nat)
    requires n <= Pieces(|data|)
    ensures Joined(data, n) == if n * CHUNK_BYTES <= |data| then data[..n * CHUNK_BYTES] else data
  {
    if n > 0 { JoinedPrefix(data, n - 1); }
  }

  lemma PieceLength(data: seq<int>, i: nat)
    requires |data| % 4 == 0 && i < Pieces(|data|)
    ensures |Piece(data, i)| == if i + 1 < Pieces(|data|) then CHUNK_BYTES else |data| - i * CHUNK_BYTES
    ensures 0 < |Piece(data, i)| <= CHUNK_BYTES
    ensures |Piece(data, i)| / 4 == if i + 1 < Pieces(|data|) then 4800 else |data| / 4 - i * 4800
  {
  }

  lemma WholeChunks(i: nat, frames: nat)
    ensures i * CHUNK_BYTES / 4 == i * 4800
    ensures Ticks(i * 4800) + Ticks(frames) == Ticks(i * 4800 + frames)
  {
    AfterWhole(i * 1000000, 0);
    AfterWhole(i * 1000000, frames * 10000000);
  }

  lemma AfterWhole(k: nat, x: nat)
    ensures (48000 * k + x) / 48000 == k + x / 48000
  {
  }

  /** The chunks are the packet: joined they give its bytes, and in time they follow each other
      exactly, from its start to its end. */
  lemma ChunksTile(data: seq<int>, start: int, i: nat)
    requires |data| % 4 == 0 && i < Pieces(|data|)
    ensures Joined(data, Pieces(|data|)) == data
    ensures 0 < |Piece(data, i)| <= CHUNK_BYTES
    ensures PieceTime(start, 0) == start
    ensures i + 1 < Pieces(|data|) ==> PieceTime(start, i) + PieceTicks(data, i) == PieceTime(start, i + 1)
    ensures i + 1 == Pieces(|data|) ==> PieceTime(start, i) + PieceTicks(data, i) == start + Ticks(|data| / 4)
  {
    JoinedPrefix(data, Pieces(|data|));
    PieceLength(data, i);
    WholeChunks(i, |Piece(data, i)| / 4);
    WholeChunks(i + 1, 0);
    hide Piece, Ticks, Joined;
    assert PieceTicks(data, i) == Ticks(|Piece(data, i)| / 4);
  }

  // ---- the ring ----

  /** The slot `k` positions after ring position `from`. */
  function Place(from: nat, k: nat, size: nat): (p: nat)
    requires size > 0
    ensures p < size
  {
    Admission.SlotOf(from + k, size)
  }

  lemma PlacesDiffer(from: nat, size: nat, i: nat)
    requires 0 < size && i < size
    ensures forall k :: 0 <= k < size && k != i ==> Place(from, k, size) != Place(from, i, size)
  {
    hide Admission.SlotOf;
    forall k | 0 <= k < size && k != i ensures Place(from, k, size) != Place(from, i, size) {
      if k < i { Admission.DistinctSlots(from + k, from + i, size); } else { Admission.DistinctSlots(from + i, from + k, size); }
    }
  }

  /** `n` consecutive slots from a ring position on. */
  ghost function Window(slots: seq<Slot>, from: nat, n: nat): (w: seq<Slot>)
    requires slots != []
    ensures |w| == n
  {
    seq(n, i requires 0 <= i < n => slots[Place(from, i, |slots|)])
  }

  /** The slots from position `write + i` on hold the leases from index `i` on. */
  ghost predicate ReservedFrom(slots: seq<Slot>, write: nat, leases: seq<nat>, i: nat) {
    slots != [] && forall k :: i <= k < |leases| ==> slots[Place(write, k, |slots|)].lease == Some(leases[k])
  }

  ghost predicate Reserved(slots: seq<Slot>, write: nat, leases: seq<nat>) {
    ReservedFrom(slots, write, leases, 0)
  }

  /** Writing the slot of position `write + i` leaves all visible slots alone. */
  lemma Outside(slots: seq<Slot>, read: nat, write: nat, i: nat, slot: Slot)
    requires slots != [] && read <= write && write + i < read + |slots|
    ensures Window(slots[Place(write, i, |slots|) := slot], read, write - read) == Window(slots, read, write - read)
  {
    assert Place(read, write - read + i, |slots|) == Place(write, i, |slots|);
    PlacesDiffer(read, |slots|, write - read + i);
    hide Place;
  }

  lemma StoreReserved(slots: seq<Slot>, read: nat, write: nat, leases: seq<nat>, lease: nat)
    requires slots != [] && read <= write && write + |leases| < read + |slots| && Reserved(slots, write, leases)
    ensures var at := Place(write, |leases|, |slots|);
            var after := slots[at := slots[at].(lease := Some(lease))];
            Reserved(after, write, leases + [lease]) && Window(after, read, write - read) == Window(slots, read, write - read)
  {
    var at := Place(write, |leases|, |slots|);
    Outside(slots, read, write, |leases|, slots[at].(lease := Some(lease)));
    PlacesDiffer(write, |slots|, |leases|);
    hide Place, Window;
  }

  /** Emptying the first of the remaining reserved slots leaves the others reserved. */
  lemma UnreserveFirst(slots: seq<Slot>, write: nat, leases: seq<nat>, i: nat, slot: Slot)
    requires i < |leases| <= |slots| && ReservedFrom(slots, write, leases, i)
    ensures slots[Place(write, i, |slots|)].lease == Some(leases[i])
    ensures ReservedFrom(slots[Place(write, i, |slots|) := slot], write, leases, i + 1)
  {
    PlacesDiffer(write, |slots|, i);
    hide Place;
  }

  lemma ChunkStored(slots: seq<Slot>, write: nat, i: nat, slot: Slot, data: seq<int>, start: int, generation: nat, leases: seq<nat>)
    requires slots != [] && i < |leases| == Pieces(|data|) <= |slots| && Reserved(slots, write, leases)
    requires slot == Slot(Some(leases[i]), PieceTime(start, i), PieceTicks(data, i), generation, Piece(data, i))
    requires Window(slots, write, i) == Chunks(data, start, generation, leases, i)
    ensures var after := slots[Place(write, i, |slots|) := slot];
            Reserved(after, write, leases) && Window(after, write, i + 1) == Chunks(data, start, generation, leases, i + 1)
  {
    PlacesDiffer(write, |slots|, i);
    hide Place, Piece, PieceTime, PieceTicks;
    var after := slots[Place(write, i, |slots|) := slot];
    assert Window(after, write, i) == Window(slots, write, i);
    assert Window(after, write, i + 1) == Window(after, write, i) + [slot];
    assert Chunks(data, start, generation, leases, i + 1) == Chunks(data, start, generation, leases, i) + [slot];
  }

  /** Changing anything but the lease of a reserved slot leaves it reserved. */
  lemma StillReserved(slots: seq<Slot>, write: nat, leases: seq<nat>, i: nat, slot: Slot)
    requires i < |leases| <= |slots| && Reserved(slots, write, leases)
    requires slot.lease == slots[Place(write, i, |slots|)].lease
    ensures slot.lease == Some(leases[i]) && Reserved(slots[Place(write, i, |slots|) := slot], write, leases)
  {
    PlacesDiffer(write, |slots|, i);
    hide Place;
  }

  lemma NothingFilled(slots: seq<Slot>, write: nat, data: seq<int>, start: int, generation: nat, leases: seq<nat>)
    requires slots != []
    ensures Window(slots, write, 0) == [] == Chunks(data, start, generation, leases, 0)
  {
  }

  lemma WindowJoin(slots: seq<Slot>, read: nat, write: nat, n: nat)
    requires slots != [] && read <= write
    ensures Window(slots, read, write + n - read) == Window(slots, read, write - read) + Window(slots, write, n)
  {
  }

  // ---- delivery ----

  ghost function Chunks(data: seq<int>, start: int, generation: nat, leases: seq<nat>, n: nat): seq<Slot>
    requires n <= |leases| && n <= Pieces(|data|)
  {
    seq(n, i requires 0 <= i < n =>
      Slot(Some(leases[i]), PieceTime(start, i), PieceTicks(data, i), generation, Piece(data, i)))
  }

  /** The chunks of a packet in its own bytes, counted in 100 ms of four-byte samples. */
  lemma ChunksOf(data: seq<int>, start: int, generation: nat, leases: seq<nat>)
    requires |leases| == Pieces(|data|)
    ensures Pieces(|data|) == (|data| + 19199) / 19200 && |Chunks(data, start, generation, leases, |leases|)| == |leases|
    ensures forall i :: 0 <= i < |leases| ==>
              var slot := Chunks(data, start, generation, leases, |leases|)[i];
              var end := if 19200 * (i + 1) <= |data| then 19200 * (i + 1) else |data|;
              && 19200 * i < end <= |data| && slot.bytes == data[19200 * i..end] && slot.generation == generation
              && slot.time == start + 19200 * i / 4 * 10000000 / 48000
              && slot.duration == (end - 19200 * i) / 4 * 10000000 / 48000
              && slot.lease == Some(leases[i])
  {
  }

  lemma NothingReserved(slots: seq<Slot>, write: nat)
    requires slots != []
    ensures Reserved(slots, write, [])
  {
  }

  lemma Multiplied(before: multiset<nat>, leases: seq<nat>, i: nat)
    requires i < |leases|
    ensures (before + multiset(leases[i..]))[leases[i]] > 0
    ensures before + multiset(leases[i..]) - multiset{leases[i]} == before + multiset(leases[i + 1..])
  {
    assert leases[i..] == [leases[i]] + leases[i + 1..];
    assert multiset(leases[i..]) == multiset{leases[i]} + multiset(leases[i + 1..]);
  }

  /** Fewer than `count` buffers are free: the others are leased. */
  ghost predicate TooFew(buffers: seq<nat>, leases: multiset<nat>, count: nat) {
    exists free: seq<nat> :: |free| < count && forall b :: b in buffers ==> leases[b] > 0 || b in free
  }

  /** Leases of different buffers, none of which was leased before. */
  ghost predicate Unshared(leases: seq<nat>, before: multiset<nat>) {
    && (forall i, j :: 0 <= i < j < |leases| ==> leases[i] != leases[j])
    && (forall i :: 0 <= i < |leases| ==> before[leases[i]] == 0)
  }

  lemma NoLeases(before: multiset<nat>)
    ensures Unshared([], before) && before + multiset([]) == before
  {
  }

  lemma OneMoreLease(before: multiset<nat>, leases: seq<nat>, lease: nat)
    requires Unshared(leases, before) && (before + multiset(leases))[lease] == 0
    ensures Unshared(leases + [lease], before)
    ensures before + multiset(leases + [lease]) == before + multiset(leases) + multiset{lease}
  {
    assert multiset(leases + [lease]) == multiset(leases) + multiset{lease};
    assert forall i :: 0 <= i < |leases| ==> leases[i] in multiset(leases);
  }

  lemma AllTaken(buffers: seq<nat>, before: multiset<nat>, leases: seq<nat>, count: nat)
    requires |leases| < count && forall b :: b in buffers ==> (before + multiset(leases))[b] > 0
    ensures TooFew(buffers, before, count)
  {
    assert forall b :: b in buffers ==> before[b] > 0 || b in leases;
  }

  class Delivery {
    const pool: Pool
    var slots: seq<Slot>
    var write: nat
    var read: nat

    /** Locking, unlocking or sizing a buffer has failed. */
    ghost var refused: bool

    ghost predicate Valid()
      reads this, pool
    {
      slots != [] && read <= write <= read + |slots| && pool.Valid()
    }

    /** The packets the worker can see, oldest first. */
    ghost function Visible(): seq<Slot>
      reads this
      requires slots != [] && read <= write
    {
      Window(slots, read, write - read)
    }

    constructor (capacity: nat, pool: Pool)
      requires capacity > 0 && pool.Valid()
      ensures Valid() && Visible() == [] && this.pool == pool && !refused
    {
      this.pool := pool;
      slots := seq(capacity, _ => Slot(None, 0, 0, 0, []));
      write, read, refused := 0, 0, false;
    }

    /** All chunks of the packet, or none of them: whatever fails, even in the middle of copying,
        the visible packets and all leases are as before. */
    method PushAudioChunks(data: seq<int>, start: int, generation: nat) returns (error: Option<Error>)
      requires Valid() && data != [] && start <= INT64_MAX
      modifies `slots, `write, `refused, pool`references, pool`leases, pool`next, pool`deleted
      ensures Valid() && |slots| == |old(slots)| && read == old(read)
      ensures error == Some(InvalidInput) <==> |data| % 4 != 0 || start > INT64_MAX - Ticks(|data| / 4)
      ensures error != Some(InvalidInput) ==> (error == Some(QueueFull) <==> Pieces(|data|) > |slots| - (old(write) - read))
      ensures error == Some(OutOfLeases) ==> TooFew(pool.buffers, old(pool.leases), Pieces(|data|))
      ensures refused == (old(refused) || error == Some(CopyFailed))
      ensures error.Some? ==> write == old(write) && Visible() == old(Visible()) && pool.leases == old(pool.leases)
      ensures error.None? ==> exists leases: seq<nat> ::
                && |leases| == Pieces(|data|) && Unshared(leases, old(pool.leases))
                && pool.leases == old(pool.leases) + multiset(leases)
                && Visible() == old(Visible()) + Chunks(data, start, generation, leases, |leases|)
      ensures error.None? ==>
                var n, before := (|data| + 19199) / 19200, old(Visible());
                && |Visible()| == |before| + n && Visible()[..|before|] == before
                && forall i :: 0 <= i < n ==>
                     var slot := Visible()[|before|..][i];
                     var end := if 19200 * (i + 1) <= |data| then 19200 * (i + 1) else |data|;
                     && 19200 * i < end <= |data| && slot.bytes == data[19200 * i..end] && slot.generation == generation
                     && slot.time == start + 19200 * i / 4 * 10000000 / 48000
                     && slot.duration == (end - 19200 * i) / 4 * 10000000 / 48000
                     && slot.lease.Some?
    {
      hide Window, Reserved, Chunks, Ticks, Place, Unshared, TooFew, Pool.Valid;
      if |data| % 4 != 0 { return Some(InvalidInput); }
      var duration := Ticks(|data| / 4);
      if start > INT64_MAX - duration { return Some(InvalidInput); }
      var count := Pieces(|data|);
      if count > |slots| - (write - read) { return Some(QueueFull); }
      ghost var leases;
      error, leases := DeliverAll(data, start, generation, count);
      if error.None? {
        ChunksOf(data, start, generation, leases);
        assert Visible()[|old(Visible())|..] == Chunks(data, start, generation, leases, count);
      }
    }

    /** Reserves, fills and then shows the chunks. */
    method DeliverAll(data: seq<int>, start: int, generation: nat, count: nat) returns (error: Option<Error>, ghost leases: seq<nat>)
      requires Valid() && count == Pieces(|data|) <= |slots| - (write - read)
      modifies `slots, `write, `refused, pool`references, pool`leases, pool`next, pool`deleted
      ensures Valid() && |slots| == |old(slots)|
      ensures error.None? || error == Some(OutOfLeases) || error == Some(CopyFailed)
      ensures error == Some(OutOfLeases) ==> TooFew(pool.buffers, old(pool.leases), count)
      ensures refused == (old(refused) || error == Some(CopyFailed))
      ensures error.Some? ==> write == old(write) && Visible() == old(Visible()) && pool.leases == old(pool.leases)
      ensures error.None? ==> |leases| == count && Unshared(leases, old(pool.leases)) && pool.leases == old(pool.leases) + multiset(leases)
      ensures error.None? ==> Visible() == old(Visible()) + Chunks(data, start, generation, leases, count)
    {
      hide Window, Reserved, Chunks, Ticks, Place, Unshared, Pool.Valid;
      var enough;
      enough, leases := ReserveAll(count);
      if !enough { return Some(OutOfLeases), []; }
      var filled := FillAll(data, start, generation, count, leases);
      if !filled {
        ReturnLeases(count, leases, old(pool.leases));
        return Some(CopyFailed), [];
      }
      WindowJoin(slots, read, write, count);
      write := write + count;
      error := None;
    }

    /** Takes a lease for every chunk before any byte is copied, or gives all of them back. */
    method ReserveAll(count: nat) returns (enough: bool, ghost leases: seq<nat>)
      requires Valid() && count <= |slots| - (write - read)
      modifies `slots, pool`references, pool`leases, pool`next, pool`deleted
      ensures Valid() && |slots| == |old(slots)|
      ensures Window(slots, read, write - read) == old(Window(slots, read, write - read))
      ensures enough ==> |leases| == count && Reserved(slots, write, leases) && pool.leases == old(pool.leases) + multiset(leases)
      ensures enough ==> Unshared(leases, old(pool.leases))
      ensures !enough ==> pool.leases == old(pool.leases) && TooFew(pool.buffers, old(pool.leases), count)
    {
      hide Window, Reserved, Place, TooFew, Unshared, Pool.Valid;
      leases := [];
      NoLeases(old(pool.leases));
      NothingReserved(slots, write);
      assert multiset(leases) == multiset{};
      for i := 0 to count
        invariant Valid() && |slots| == |old(slots)| && |leases| == i
        invariant pool.leases == old(pool.leases) + multiset(leases) && Unshared(leases, old(pool.leases))
        invariant Window(slots, read, write - read) == old(Window(slots, read, write - read))
        invariant Reserved(slots, write, leases)
      {
        var buffer := ReserveOne(i, leases, old(pool.leases));
        if buffer.None? {
          AllTaken(pool.buffers, old(pool.leases), leases, count);
          ReturnLeases(i, leases, old(pool.leases));
          return false, [];
        }
        leases := leases + [buffer.value];
      }
      enough := true;
    }

    method ReserveOne(i: nat, ghost leases: seq<nat>, ghost before: multiset<nat>) returns (buffer: Option<nat>)
      requires Valid() && i == |leases| < |slots| - (write - read)
      requires pool.leases == before + multiset(leases) && Unshared(leases, before) && Reserved(slots, write, leases)
      modifies `slots, pool`references, pool`leases, pool`next
      ensures Valid() && |slots| == |old(slots)|
      ensures Window(slots, read, write - read) == old(Window(slots, read, write - read))
      ensures buffer.None? ==> slots == old(slots) && pool.leases == old(pool.leases)
      ensures buffer.None? ==> forall b :: b in pool.buffers ==> pool.leases[b] > 0
      ensures buffer.Some? ==>
                && pool.leases == before + multiset(leases + [buffer.value]) && Unshared(leases + [buffer.value], before)
                && Reserved(slots, write, leases + [buffer.value])
    {
      hide Window, Reserved, Place, Unshared, Pool.Valid;
      buffer := pool.Acquire();
      if buffer.None? { return; }
      StoreReserved(slots, read, write, leases, buffer.value);
      Reserve(i, buffer.value);
      OneMoreLease(before, leases, buffer.value);
    }

    method Reserve(i: nat, lease: nat)
      requires Valid()
      modifies `slots
      ensures Valid() && slots == old(slots)[Place(write, i, |old(slots)|) := old(slots)[Place(write, i, |old(slots)|)].(lease := Some(lease))]
    {
      var at := Place(write, i, |slots|);
      slots := slots[at := slots[at].(lease := Some(lease))];
    }

    /** Gives back what a failed packet had reserved. */
    method ReturnLeases(n: nat, ghost leases: seq<nat>, ghost before: multiset<nat>)
      requires Valid() && |leases| == n <= |slots| - (write - read)
      requires pool.leases == before + multiset(leases) && Reserved(slots, write, leases)
      modifies `slots, pool`references, pool`leases, pool`deleted
      ensures Valid() && |slots| == |old(slots)| && pool.leases == before
      ensures Window(slots, read, write - read) == old(Window(slots, read, write - read))
    {
      hide Window, ReservedFrom;
      assert leases[0..] == leases;
      for i := 0 to n
        invariant Valid() && |slots| == |old(slots)|
        invariant pool.leases == before + multiset(leases[i..])
        invariant Window(slots, read, write - read) == old(Window(slots, read, write - read))
        invariant ReservedFrom(slots, write, leases, i)
      {
        ReturnOne(i, leases, before);
      }
      assert leases[n..] == [];
    }

    method ReturnOne(i: nat, ghost leases: seq<nat>, ghost before: multiset<nat>)
      requires Valid() && i < |leases| <= |slots| - (write - read)
      requires pool.leases == before + multiset(leases[i..]) && ReservedFrom(slots, write, leases, i)
      modifies `slots, pool`references, pool`leases, pool`deleted
      ensures Valid() && |slots| == |old(slots)| && pool.leases == before + multiset(leases[i + 1..])
      ensures ReservedFrom(slots, write, leases, i + 1)
      ensures Window(slots, read, write - read) == old(Window(slots, read, write - read))
    {
      hide Window, Place, ReservedFrom;
      var at := Place(write, i, |slots|);
      var empty := slots[at].(lease := None);
      Multiplied(before, leases, i);
      UnreserveFirst(slots, write, leases, i, empty);
      Outside(slots, read, write, i, empty);
      var left := pool.Release(slots[at].lease.value);
      slots := slots[at := empty];
    }

    /** Copies the bytes and times of every chunk into its reserved slot. Locking, unlocking or
        sizing a buffer may fail at any chunk; then some slots are filled and none is visible. */
    method FillAll(data: seq<int>, start: int, generation: nat, count: nat, ghost leases: seq<nat>) returns (ok: bool)
      requires Valid() && count == |leases| == Pieces(|data|) <= |slots| - (write - read)
      requires Reserved(slots, write, leases)
      modifies `slots, `refused
      ensures refused == (old(refused) || !ok)
      ensures Valid() && |slots| == |old(slots)| && Reserved(slots, write, leases)
      ensures Window(slots, read, write - read) == old(Window(slots, read, write - read))
      ensures ok ==> Window(slots, write, count) == Chunks(data, start, generation, leases, count)
    {
      hide Window, Reserved, Chunks;
      NothingFilled(slots, write, data, start, generation, leases);
      for i := 0 to count
        invariant Valid() && |slots| == |old(slots)| && Reserved(slots, write, leases)
        invariant Window(slots, read, write - read) == old(Window(slots, read, write - read))
        invariant Window(slots, write, i) == Chunks(data, start, generation, leases, i) && refused == old(refused)
      {
        ok := FillOne(data, start, generation, i, leases);
        if !ok { return; }
      }
      ok := true;
    }

    method FillOne(data: seq<int>, start: int, generation: nat, i: nat, ghost leases: seq<nat>) returns (ok: bool)
      requires Valid() && i < |leases| == Pieces(|data|) <= |slots| - (write - read) && Reserved(slots, write, leases)
      requires Window(slots, write, i) == Chunks(data, start, generation, leases, i)
      modifies `slots, `refused
      ensures refused == (old(refused) || !ok)
      ensures Valid() && |slots| == |old(slots)| && Reserved(slots, write, leases)
      ensures Window(slots, read, write - read) == old(Window(slots, read, write - read))
      ensures ok ==> Window(slots, write, i + 1) == Chunks(data, start, generation, leases, i + 1)
    {
      hide Window, Reserved, Chunks, Place;
      var offset := i * CHUNK_BYTES;
      var at := Place(write, i, |slots|);
      ghost var was := slots;
      var locked := *;
      if !locked { refused := true; return false; }
      var bytes := if |data| - offset < CHUNK_BYTES then |data| - offset else CHUNK_BYTES;
      var copied := slots[at].(bytes := data[offset..offset + bytes]);
      slots := slots[at := copied];
      StillReserved(was, write, leases, i, copied);
      Outside(was, read, write, i, copied);
      var unlocked, sized := *, *;
      if !unlocked || !sized { refused := true; return false; }
      var slot := Slot(copied.lease, start + Ticks(offset / 4), Ticks(bytes / 4), generation, copied.bytes);
      slots := slots[at := slot];
      assert slots == was[at := slot];
      ChunkStored(was, write, i, slot, data, start, generation, leases);
      Outside(was, read, write, i, slot);
      return true;
    }
  }
}
