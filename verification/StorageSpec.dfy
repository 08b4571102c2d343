/**
  What the jobs of a recording storage queue mean, apart from the queue that delays them:
  the contents of a file after a list of jobs, and the synchronous file a client believes in.
*/
module StorageSpec {
  import opened Wrappers

  type Bytes = seq<int>

  /** Jobs of several sibling files share one queue; `file` tells them apart. */
  datatype Job =
    | Write(file: nat, position: nat, data: Bytes)
    | Read(file: nat, position: nat, count: nat)
    | Resize(file: nat, length: nat)
    | Flush(file: nat, coalesced: bool)
    | Close(file: nat)
    | Space

  function Zeros(n: nat): (z: Bytes)
    ensures |z| == n
  {
    seq(n, _ => 0)
  }

  /** Writing past the end fills the gap with zeros; writing nothing changes nothing. */
  function WriteAt(c: Bytes, position: nat, data: Bytes): (r: Bytes)
    ensures data != [] ==> |r| == (if |c| < position + |data| then position + |data| else |c|)
  {
    if data == [] then c
    else
      var base := if |c| < position then c + Zeros(position - |c|) else c;
      base[..position] + data + (if position + |data| < |base| then base[position + |data|..] else [])
  }

  function ResizeTo(c: Bytes, length: nat): (r: Bytes)
    ensures |r| == length
  {
    if length <= |c| then c[..length] else c + Zeros(length - |c|)
  }

  function ReadAt(c: Bytes, position: nat, count: nat): (r: Bytes)
    ensures |r| <= count
  {
    if position >= |c| then []
    else if position + count <= |c| then c[position..position + count]
    else c[position..]
  }

  /** Byte by byte: the data at its place, zeros in a gap, and everything else as it was. */
  lemma WrittenBytes(c: Bytes, position: nat, data: Bytes)
    ensures var r := WriteAt(c, position, data);
            && (data == [] ==> r == c)
            && (data != [] ==>
                  && |r| == (if position + |data| > |c| then position + |data| else |c|)
                  && forall i :: 0 <= i < |r| ==>
                       r[i] == if position <= i < position + |data| then data[i - position] else if i < |c| then c[i] else 0)
  {
  }

  lemma ResizedBytes(c: Bytes, length: nat)
    ensures var r := ResizeTo(c, length);
            |r| == length && forall i :: 0 <= i < length ==> r[i] == if i < |c| then c[i] else 0
  {
  }

  lemma ReadBytes(c: Bytes, position: nat, count: nat)
    ensures var r := ReadAt(c, position, count);
            && |r| == (if position >= |c| then 0 else if position + count <= |c| then count else |c| - position)
            && forall i :: 0 <= i < |r| ==> r[i] == c[position + i]
  {
  }

  predicate For(job: Job, f: nat) {
    !job.Space? && job.file == f
  }

  /** The contents of file `f` after one job. */
  function Effect(c: Bytes, job: Job, f: nat): Bytes {
    if !For(job, f) then c
    else match job
      case Write(_, position, data) => WriteAt(c, position, data)
      case Resize(_, length) => ResizeTo(c, length)
      case _ => c
  }

  /** The contents of file `f` after a list of jobs, oldest first. */
  ghost function Replay(c: Bytes, jobs: seq<Job>, f: nat): Bytes {
    if jobs == [] then c else Effect(Replay(c, jobs[..|jobs| - 1], f), jobs[|jobs| - 1], f)
  }

  lemma ReplayAppend(c: Bytes, jobs: seq<Job>, job: Job, f: nat)
    ensures Replay(c, jobs + [job], f) == Effect(Replay(c, jobs, f), job, f)
  {
  }

  /** Replaying the rest on top of a prefix is replaying the whole. */
  lemma {:induction false} ReplayCompose(c: Bytes, first: seq<Job>, rest: seq<Job>, f: nat)
    ensures Replay(Replay(c, first, f), rest, f) == Replay(c, first + rest, f)
  {
    if rest == [] {
      assert first + rest == first;
    } else {
      ReplayCompose(c, first, rest[..|rest| - 1], f);
      assert (first + rest)[..|first + rest| - 1] == first + rest[..|rest| - 1];
    }
  }

  /** Jobs of other files leave a file alone. */
  lemma {:induction false} ReplayOthers(c: Bytes, jobs: seq<Job>, f: nat)
    requires forall i :: 0 <= i < |jobs| ==> !For(jobs[i], f) || !(jobs[i].Write? || jobs[i].Resize?)
    ensures Replay(c, jobs, f) == c
  {
    if jobs != [] { ReplayOthers(c, jobs[..|jobs| - 1], f); }
  }

  /** What a file may hold when one job failed half-way: at most a prefix of its write. */
  ghost predicate Interrupted(before: Bytes, job: Job, f: nat, after: Bytes) {
    if For(job, f) && job.Write?
    then exists n :: 0 <= n <= |job.data| && after == WriteAt(before, job.position, job.data[..n])
    else after == before
  }

  // ---- the synchronous file ----

  datatype SyncFile = SyncFile(content: Bytes, position: nat)

  function SyncWrite(s: SyncFile, data: Bytes): SyncFile {
    SyncFile(WriteAt(s.content, s.position, data), s.position + |data|)
  }

  function SyncResize(s: SyncFile, length: nat): SyncFile {
    s.(content := ResizeTo(s.content, length))
  }

  function SyncRead(s: SyncFile, count: nat): (Bytes, SyncFile) {
    var data := ReadAt(s.content, s.position, count);
    (data, s.(position := s.position + |data|))
  }

  // ---- accounting ----

  function Payload(job: Job): nat {
    if job.Write? then |job.data| else 0
  }

  function Payloads(jobs: seq<Job>): nat {
    if jobs == [] then 0 else Payload(jobs[0]) + Payloads(jobs[1..])
  }

  function Spaces(jobs: seq<Job>): nat {
    if jobs == [] then 0 else (if jobs[0].Space? then 1 else 0) + Spaces(jobs[1..])
  }

  function Coalesced(jobs: seq<Job>, f: nat): nat {
    if jobs == [] then 0 else (if jobs[0] == Flush(f, true) then 1 else 0) + Coalesced(jobs[1..], f)
  }

  lemma {:induction false} CountsAppend(jobs: seq<Job>, job: Job, f: nat)
    ensures Payloads(jobs + [job]) == Payloads(jobs) + Payload(job)
    ensures Spaces(jobs + [job]) == Spaces(jobs) + (if job.Space? then 1 else 0)
    ensures Coalesced(jobs + [job], f) == Coalesced(jobs, f) + (if job == Flush(f, true) then 1 else 0)
  {
    if jobs == [] {
      assert jobs + [job] == [job];
    } else {
      CountsAppend(jobs[1..], job, f);
      assert (jobs + [job])[1..] == jobs[1..] + [job];
    }
  }
}
