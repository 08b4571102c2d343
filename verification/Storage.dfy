/**
  Write-behind recording storage: several files behind one bounded job queue and one worker.

  Every method is one atomic step: either what a client does under the stream and queue locks,
  or one of the worker's four steps on a job. Any sequence of calls is therefore one of the
  interleavings of clients and worker, and `Valid` holds between all of them. A client call
  that has to wait is two steps; its second step requires the condition it waited for.

  `history` lists every job ever accepted and `sync` is the file each client would have if its
  calls took effect at once.
*/
module Storage {
  import opened Wrappers
  import opened StorageSpec

  const QWORD_MAX: nat := 0xFFFF_FFFF_FFFF_FFFF
  type Qword = x: nat | x <= QWORD_MAX

  const INT64_MAX: int := 0x7FFF_FFFF_FFFF_FFFF

  datatype Error = Shutdown | InvalidArg | BufferOverflow | Physical(code: nat)
  datatype Status = Ok | Failed(error: Error)
  datatype Origin = Begin | Current | OtherOrigin

  datatype Ticket = Ticket(sequence: nat, job: Job)

  /** The worker starts up; then it takes a job, runs it, publishes the outcome and accounts
      for it. */
  datatype Worker =
    | Starting
    | Idle
    | Holding(ticket: Ticket)
    | Ran(ticket: Ticket, result: Status)
    | Published(ticket: Ticket)

  /** Where the physical files stopped following the history, after the first failure. */
  datatype Stop = Running | Stopped(at: nat, during: bool)

  /** One sibling: its physical file and what its stream object remembers. */
  datatype File = File(physical: Bytes, handleClosed: bool,
                       position: nat, length: nat, closed: bool, sealedSequence: nat,
                       flushPending: bool, reading: Option<nat>, buffer: Bytes)

  /** The stream's own view agrees with the synchronous file. */
  ghost predicate Mirrored(file: File, s: SyncFile, start: Bytes, history: seq<Job>, f: nat) {
    && s.content == Replay(start, history, f)
    && file.length == |s.content| <= QWORD_MAX && file.position == s.position <= QWORD_MAX
  }

  /** The physical file follows the executed part of the history, up to the first failure. */
  ghost predicate Stored(file: File, start: Bytes, history: seq<Job>, executed: nat, stop: Stop, f: nat)
    requires executed <= |history|
  {
    match stop
    case Running => file.physical == Replay(start, history[..executed], f)
    case Stopped(at, during) =>
      if during
      then at < executed && Interrupted(Replay(start, history[..at], f), history[at], f, file.physical)
      else at <= executed && file.physical == Replay(start, history[..at], f)
  }

  /** A sealed file gets exactly one closing job, after all its others; nothing touches the
      physical file after that job. */
  ghost predicate Sealed(file: File, history: seq<Job>, executed: nat, f: nat) {
    && (file.closed ==> 0 < file.sealedSequence <= |history| && history[file.sealedSequence - 1] == Close(f))
    && (file.closed ==> forall i :: file.sealedSequence <= i < |history| ==> !For(history[i], f))
    && (forall i :: 0 <= i < |history| && history[i] == Close(f) ==> file.closed && i == file.sealedSequence - 1)
    && (file.handleClosed <==> file.closed && file.sealedSequence <= executed)
  }

  /** The physical file holds every call accepted up to `sequence`: it is what some longer prefix
      of the history gives, plus at most part of the next write. */
  ghost predicate Holds(file: File, start: Bytes, history: seq<Job>, sequence: nat, f: nat) {
    exists at :: sequence <= at <= |history|
              && (file.physical == Replay(start, history[..at], f)
                  || (at < |history| && Interrupted(Replay(start, history[..at], f), history[at], f, file.physical)))
  }

  /** No job after `sequence` is for the file. */
  ghost predicate Untouched(history: seq<Job>, sequence: nat, f: nat) {
    forall i :: sequence <= i < |history| ==> !For(history[i], f)
  }

  ghost predicate Reached(stop: Stop, sequence: nat) {
    stop.Running? || sequence <= stop.at
  }

  /** A pending read is the last job of its file, and its buffer gets the synchronous bytes. */
  ghost predicate Answered(file: File, s: SyncFile, history: seq<Job>, executed: nat, stop: Stop, f: nat) {
    file.reading.Some? ==>
      var q := file.reading.value;
      && 0 < q <= |history| && !file.closed
      && history[q - 1].Read? && history[q - 1].file == f && history[q - 1].position == s.position
      && (forall i :: q <= i < |history| ==> !For(history[i], f))
      && (q <= executed && Reached(stop, q) ==> file.buffer == ReadAt(s.content, s.position, history[q - 1].count))
  }

  ghost predicate FileOk(file: File, s: SyncFile, start: Bytes, history: seq<Job>, executed: nat, stop: Stop, f: nat)
    requires executed <= |history|
  {
    && Mirrored(file, s, start, history, f)
    && Stored(file, start, history, executed, stop, f)
    && Sealed(file, history, executed, f)
    && Answered(file, s, history, executed, stop, f)
  }

  // ---- accepting a job ----

  /** A job of another file changes nothing for this one. */
  lemma OtherJob(file: File, s: SyncFile, start: Bytes, history: seq<Job>, executed: nat, stop: Stop, f: nat, job: Job)
    requires executed <= |history| && FileOk(file, s, start, history, executed, stop, f)
    requires !For(job, f)
    requires stop.Stopped? ==> stop.at <= |history|
    ensures FileOk(file, s, start, history + [job], executed, stop, f)
  {
    PrefixStays(start, history, executed, stop, job);
    ReplayAppend(start, history, job, f);
  }

  lemma PrefixStays(start: Bytes, history: seq<Job>, executed: nat, stop: Stop, job: Job)
    requires executed <= |history| && (stop.Stopped? ==> stop.at <= |history|)
    ensures (history + [job])[..executed] == history[..executed]
    ensures stop.Stopped? ==> (history + [job])[..stop.at] == history[..stop.at]
    ensures forall i :: 0 <= i < |history| ==> (history + [job])[i] == history[i]
  {
  }

  /** The stream's own job: the synchronous file moves at once, the physical one later. */
  lemma OwnJob(file: File, s: SyncFile, start: Bytes, history: seq<Job>, executed: nat, stop: Stop, f: nat,
               job: Job, file': File, s': SyncFile)
    requires executed <= |history| && FileOk(file, s, start, history, executed, stop, f)
    requires For(job, f) && file.reading.None? && !file.closed && !job.Close?
    requires stop.Stopped? ==> stop.at <= |history|
    requires s'.content == Effect(s.content, job, f) && s'.position <= QWORD_MAX && |s'.content| <= QWORD_MAX
    requires file' == file.(position := s'.position, length := |s'.content|, reading := file'.reading, flushPending := file'.flushPending)
    requires if job.Read? then file'.reading == Some(|history| + 1) && job.position == s'.position else file'.reading.None?
    ensures FileOk(file', s', start, history + [job], executed, stop, f)
  {
    PrefixStays(start, history, executed, stop, job);
    ReplayAppend(start, history, job, f);
  }

  lemma SealJob(file: File, s: SyncFile, start: Bytes, history: seq<Job>, executed: nat, stop: Stop, f: nat, file': File)
    requires executed <= |history| && FileOk(file, s, start, history, executed, stop, f)
    requires file.reading.None? && !file.closed
    requires stop.Stopped? ==> stop.at <= |history|
    requires file' == file.(closed := true, sealedSequence := |history| + 1)
    ensures FileOk(file', s, start, history + [Close(f)], executed, stop, f)
  {
    PrefixStays(start, history, executed, stop, Close(f));
    ReplayAppend(start, history, Close(f), f);
  }

  // ---- running a job ----

  /** What the worker may do to one file while running a job; `ok` says that it succeeded. */
  ghost predicate RunsOn(file: File, job: Job, f: nat, skip: bool, ok: bool, file': File) {
    if !For(job, f) then file' == file
    else match job
      case Close(_) => file' == file.(handleClosed := true)
      case Flush(_, _) => file' == file
      case _ =>
        if skip then file' == file.(buffer := file'.buffer) && (!job.Read? ==> file'.buffer == file.buffer)
        else if ok then
          file' == file.(physical := Effect(file.physical, job, f),
                         buffer := if job.Read? then ReadAt(file.physical, job.position, job.count) else file.buffer)
        else
          && file' == file.(physical := file'.physical, buffer := file'.buffer)
          && Interrupted(file.physical, job, f, file'.physical)
  }

  ghost function StopAfter(stop: Stop, executed: nat, ok: bool): Stop {
    if stop.Stopped? || ok then stop else Stopped(executed, true)
  }

  lemma JobRan(file: File, s: SyncFile, start: Bytes, history: seq<Job>, executed: nat, stop: Stop, f: nat,
               ok: bool, file': File)
    requires executed < |history| && FileOk(file, s, start, history, executed, stop, f)
    requires RunsOn(file, history[executed], f, stop.Stopped?, ok, file')
    requires stop.Stopped? ==> stop.at <= executed
    ensures FileOk(file', s, start, history, executed + 1, StopAfter(stop, executed, ok), f)
  {
    hide Stored, Sealed, Answered, Replay;
    StoredRan(file, start, history, executed, stop, f, ok, file');
    SealedRan(file, history, executed, stop, f, ok, file');
    AnsweredRan(file, s, start, history, executed, stop, f, ok, file');
  }

  lemma StoredRan(file: File, start: Bytes, history: seq<Job>, executed: nat, stop: Stop, f: nat, ok: bool, file': File)
    requires executed < |history| && Stored(file, start, history, executed, stop, f)
    requires RunsOn(file, history[executed], f, stop.Stopped?, ok, file')
    requires stop.Stopped? ==> stop.at <= executed
    ensures Stored(file', start, history, executed + 1, StopAfter(stop, executed, ok), f)
  {
    hide Replay;
    assert history[..executed + 1] == history[..executed] + [history[executed]];
    ReplayAppend(start, history[..executed], history[executed], f);
  }

  lemma SealedRan(file: File, history: seq<Job>, executed: nat, stop: Stop, f: nat, ok: bool, file': File)
    requires executed < |history| && Sealed(file, history, executed, f)
    requires RunsOn(file, history[executed], f, stop.Stopped?, ok, file')
    ensures Sealed(file', history, executed + 1, f)
  {
    assert file'.closed == file.closed && file'.sealedSequence == file.sealedSequence;
    assert file'.handleClosed == (file.handleClosed || history[executed] == Close(f));
  }

  lemma AnsweredRan(file: File, s: SyncFile, start: Bytes, history: seq<Job>, executed: nat, stop: Stop, f: nat,
                    ok: bool, file': File)
    requires executed < |history| && Answered(file, s, history, executed, stop, f)
    requires Stored(file, start, history, executed, stop, f) && s.content == Replay(start, history, f)
    requires RunsOn(file, history[executed], f, stop.Stopped?, ok, file')
    requires stop.Stopped? ==> stop.at <= executed
    ensures Answered(file', s, history, executed + 1, StopAfter(stop, executed, ok), f)
  {
    hide Replay, Interrupted, Effect;
    if file.reading == Some(executed + 1) && stop.Running? && ok {
      SinceIdle(start, history, executed, f);
    }
  }

  /** If no later job is for this file, the executed part already has all its contents. */
  lemma SinceIdle(start: Bytes, history: seq<Job>, executed: nat, f: nat)
    requires executed <= |history|
    requires forall i :: executed <= i < |history| ==> !For(history[i], f) || !(history[i].Write? || history[i].Resize?)
    ensures Replay(start, history[..executed], f) == Replay(start, history, f)
  {
    ReplayCompose(start, history[..executed], history[executed..], f);
    assert history[..executed] + history[executed..] == history;
    ReplayOthers(Replay(start, history[..executed], f), history[executed..], f);
  }

  // ---- the queue ----

  predicate EmptyHanded(worker: Worker) {
    worker.Starting? || worker.Idle?
  }

  ghost function FirstQueued(done: nat, worker: Worker): nat {
    if EmptyHanded(worker) then done else done + 1
  }

  ghost function Executed(done: nat, worker: Worker): nat {
    if worker.Ran? || worker.Published? then done + 1 else done
  }

  ghost function Settled(done: nat, worker: Worker): nat {
    if worker.Published? then done + 1 else done
  }

  ghost predicate Tickets(jobs: seq<Ticket>, history: seq<Job>, from: nat) {
    && from + |jobs| == |history|
    && (forall i :: 0 <= i < |jobs| ==> jobs[i] == Ticket(from + i + 1, history[from + i]))
  }

  /** The queue and the worker hold exactly the accepted jobs that are not done, in order. */
  ghost predicate Ordered(jobs: seq<Ticket>, worker: Worker, history: seq<Job>, done: nat) {
    && done <= |history| && FirstQueued(done, worker) <= |history|
    && Tickets(jobs, history, FirstQueued(done, worker))
    && (!EmptyHanded(worker) ==> worker.ticket == Ticket(done + 1, history[done]))
  }

  /** The published error is the first failure, known as soon as the worker has published. */
  ghost predicate Latched(error: Option<Error>, stop: Stop, worker: Worker, done: nat) {
    && (stop.Stopped? ==> stop.at <= Executed(done, worker) && (stop.during ==> stop.at < Executed(done, worker)))
    && (error.Some? ==> stop.Stopped?)
    && (stop.Stopped? && error.None? ==> worker.Ran? && worker.result.Failed? && stop == Stopped(done, true))
    && (worker.Ran? && worker.result.Failed? ==> stop.Stopped?)
    && (worker.Starting? ==> error.None?)
  }

  /** No error comes from the queue itself. */
  ghost predicate Blamed(error: Option<Error>, worker: Worker, refused: bool) {
    (error.Some? || (worker.Ran? && worker.result.Failed?)) ==> refused
  }

  // ---- the steps of the queue ----

  lemma OrderedPut(jobs: seq<Ticket>, worker: Worker, history: seq<Job>, done: nat, job: Job)
    requires Ordered(jobs, worker, history, done)
    ensures Ordered(jobs + [Ticket(|history| + 1, job)], worker, history + [job], done) && done <= |history|
  {
    TicketsAppend(jobs, history, FirstQueued(done, worker), job);
  }

  lemma OrderedStarted(jobs: seq<Ticket>, history: seq<Job>, done: nat)
    ensures Ordered(jobs, Starting, history, done) ==> Ordered(jobs, Idle, history, done)
  {
  }

  lemma OrderedTake(jobs: seq<Ticket>, history: seq<Job>, done: nat)
    requires Ordered(jobs, Idle, history, done) && jobs != []
    ensures Ordered(jobs[1..], Holding(jobs[0]), history, done)
  {
  }

  /** Between taking a job and accounting for it, the worker holds the first one not done. */
  lemma OrderedHeld(jobs: seq<Ticket>, worker: Worker, next: Worker, history: seq<Job>, done: nat)
    requires Ordered(jobs, worker, history, done) && !EmptyHanded(worker)
    ensures done < |history| && worker.ticket == Ticket(done + 1, history[done])
    ensures !EmptyHanded(next) && next.ticket == worker.ticket ==> Ordered(jobs, next, history, done)
    ensures Ordered(jobs, Idle, history, done + 1)
  {
  }

  lemma LatchedRan(error: Option<Error>, stop: Stop, ticket: Ticket, done: nat, result: Status)
    requires Latched(error, stop, Holding(ticket), done)
    ensures error.Some? <==> stop.Stopped?
    ensures stop.Stopped? ==> stop.at <= done
    ensures Latched(error, StopAfter(stop, done, result.Ok?), Ran(ticket, result), done)
  {
  }

  lemma LatchedPublished(error: Option<Error>, stop: Stop, ticket: Ticket, result: Status, done: nat)
    requires Latched(error, stop, Ran(ticket, result), done)
    ensures Latched(if error.None? && result.Failed? then Some(result.error) else error, stop, Published(ticket), done)
    ensures stop.Stopped? ==> stop.at <= done + 1
  {
  }

  lemma LatchedCompleted(error: Option<Error>, stop: Stop, ticket: Ticket, done: nat)
    requires Latched(error, stop, Published(ticket), done)
    ensures Latched(error, stop, Idle, done + 1)
  {
  }

  lemma TicketsAppend(jobs: seq<Ticket>, history: seq<Job>, from: nat, job: Job)
    requires Tickets(jobs, history, from)
    ensures Tickets(jobs + [Ticket(|history| + 1, job)], history + [job], from)
  {
  }

  lemma TailAppend(history: seq<Job>, job: Job, from: nat, f: nat)
    requires from <= |history|
    ensures Payloads((history + [job])[from..]) == Payloads(history[from..]) + Payload(job)
    ensures Spaces((history + [job])[from..]) == Spaces(history[from..]) + (if job.Space? then 1 else 0)
    ensures Coalesced((history + [job])[from..], f) == Coalesced(history[from..], f) + (if job == Flush(f, true) then 1 else 0)
  {
    assert (history + [job])[from..] == history[from..] + [job];
    CountsAppend(history[from..], job, f);
  }

  lemma TailHead(history: seq<Job>, from: nat, f: nat)
    requires from < |history|
    ensures Payloads(history[from..]) == Payload(history[from]) + Payloads(history[from + 1..])
    ensures Spaces(history[from..]) == (if history[from].Space? then 1 else 0) + Spaces(history[from + 1..])
    ensures Coalesced(history[from..], f) == (if history[from] == Flush(f, true) then 1 else 0) + Coalesced(history[from + 1..], f)
  {
  }

  ghost predicate AllFiles(files: seq<File>, sync: seq<SyncFile>, start: seq<Bytes>, history: seq<Job>, executed: nat, stop: Stop) {
    && |files| == |sync| == |start| && executed <= |history|
    && (forall f :: 0 <= f < |files| ==> FileOk(files[f], sync[f], start[f], history, executed, stop, f))
    && (forall i :: 0 <= i < |history| && !history[i].Space? ==> history[i].file < |files|)
  }

  ghost predicate AllFlushes(files: seq<File>, history: seq<Job>, settled: nat) {
    && settled <= |history|
    && (forall f :: 0 <= f < |files| ==> Coalesced(history[settled..], f) == (if files[f].flushPending then 1 else 0))
  }

  /** Accepting a job for file `f` keeps every file right, provided `f` itself stays right. */
  lemma FilesAccept(files: seq<File>, sync: seq<SyncFile>, start: seq<Bytes>, history: seq<Job>, executed: nat, stop: Stop,
                    f: nat, job: Job, file': File, s': SyncFile)
    requires AllFiles(files, sync, start, history, executed, stop) && f < |files| && For(job, f)
    requires stop.Stopped? ==> stop.at <= |history|
    requires FileOk(file', s', start[f], history + [job], executed, stop, f)
    ensures AllFiles(files[f := file'], sync[f := s'], start, history + [job], executed, stop)
  {
    hide FileOk;
    forall g | 0 <= g < |files|
      ensures FileOk(files[f := file'][g], sync[f := s'][g], start[g], history + [job], executed, stop, g)
    {
      if g != f { OtherJob(files[g], sync[g], start[g], history, executed, stop, g, job); }
    }
  }

  lemma FlushesAccept(files: seq<File>, history: seq<Job>, settled: nat, f: nat, job: Job, file': File)
    requires AllFlushes(files, history, settled) && f < |files|
    requires job.Space? || For(job, f)
    requires job == Flush(f, true) ==> !files[f].flushPending && file'.flushPending
    requires job != Flush(f, true) ==> file'.flushPending == files[f].flushPending
    ensures AllFlushes(files[f := file'], history + [job], settled)
  {
    forall g | 0 <= g < |files| ensures
      Coalesced((history + [job])[settled..], g) == (if files[f := file'][g].flushPending then 1 else 0)
    {
      TailAppend(history, job, settled, g);
    }
  }

  lemma OwnAccepted(files: seq<File>, sync: seq<SyncFile>, start: seq<Bytes>, history: seq<Job>, executed: nat, stop: Stop,
                    f: nat, job: Job, file': File, s': SyncFile, settled: nat)
    requires AllFiles(files, sync, start, history, executed, stop) && AllFlushes(files, history, settled)
    requires f < |files| && For(job, f) && files[f].reading.None? && !files[f].closed && !job.Close?
    requires stop.Stopped? ==> stop.at <= |history|
    requires s'.content == Effect(sync[f].content, job, f) && s'.position <= QWORD_MAX && |s'.content| <= QWORD_MAX
    requires file' == files[f].(position := s'.position, length := |s'.content|, reading := file'.reading, flushPending := file'.flushPending)
    requires if job.Read? then file'.reading == Some(|history| + 1) && job.position == s'.position else file'.reading.None?
    requires job == Flush(f, true) ==> !files[f].flushPending && file'.flushPending
    requires job != Flush(f, true) ==> file'.flushPending == files[f].flushPending
    ensures AllFiles(files[f := file'], sync[f := s'], start, history + [job], executed, stop)
    ensures AllFlushes(files[f := file'], history + [job], settled)
  {
    hide FileOk;
    OwnJob(files[f], sync[f], start[f], history, executed, stop, f, job, file', s');
    FilesAccept(files, sync, start, history, executed, stop, f, job, file', s');
    FlushesAccept(files, history, settled, f, job, file');
  }

  lemma CloseAccepted(files: seq<File>, sync: seq<SyncFile>, start: seq<Bytes>, history: seq<Job>, executed: nat, stop: Stop,
                      f: nat, file': File, settled: nat)
    requires AllFiles(files, sync, start, history, executed, stop) && AllFlushes(files, history, settled)
    requires f < |files| && files[f].reading.None? && !files[f].closed
    requires stop.Stopped? ==> stop.at <= |history|
    requires file' == files[f].(closed := true, sealedSequence := |history| + 1)
    ensures AllFiles(files[f := file'], sync, start, history + [Close(f)], executed, stop)
    ensures AllFlushes(files[f := file'], history + [Close(f)], settled)
  {
    hide FileOk;
    SealJob(files[f], sync[f], start[f], history, executed, stop, f, file');
    FilesAccept(files, sync, start, history, executed, stop, f, Close(f), file', sync[f]);
    FlushesAccept(files, history, settled, f, Close(f), file');
    assert sync[f := sync[f]] == sync;
  }

  /** One file and its synchronous view change; the others stay. */
  lemma FileReplaced(files: seq<File>, sync: seq<SyncFile>, start: seq<Bytes>, history: seq<Job>, executed: nat, stop: Stop,
                     f: nat, file': File, s': SyncFile)
    requires AllFiles(files, sync, start, history, executed, stop) && f < |files|
    requires FileOk(file', s', start[f], history, executed, stop, f)
    ensures AllFiles(files[f := file'], sync[f := s'], start, history, executed, stop)
  {
    hide FileOk;
  }

  lemma Sought(file: File, s: SyncFile, start: Bytes, history: seq<Job>, executed: nat, stop: Stop, f: nat, position: Qword)
    requires executed <= |history| && FileOk(file, s, start, history, executed, stop, f) && file.reading.None?
    ensures FileOk(file.(position := position), s.(position := position), start, history, executed, stop, f)
  {
  }

  /** A finished read moves the position past what it read; unless the queue had stopped before
      it, its buffer holds the synchronous bytes. */
  lemma ReadEnds(file: File, s: SyncFile, start: Bytes, history: seq<Job>, executed: nat, stop: Stop, f: nat)
    requires executed <= |history| && FileOk(file, s, start, history, executed, stop, f)
    requires file.reading.Some? && file.reading.value <= executed
    ensures 0 < file.reading.value <= |history| && history[file.reading.value - 1].Read?
    ensures file.position == s.position
    ensures FileOk(file.(reading := None), s, start, history, executed, stop, f)
    ensures Reached(stop, file.reading.value) ==>
              var next := SyncRead(s, history[file.reading.value - 1].count);
              && file.buffer == next.0 && next.1 == s.(position := s.position + |file.buffer|)
              && FileOk(file.(reading := None, position := next.1.position), next.1, start, history, executed, stop, f)
  {
    hide Replay, Interrupted;
  }

  /** A worker that cannot start stops the queue before the next job. */
  lemma StopsBefore(files: seq<File>, sync: seq<SyncFile>, start: seq<Bytes>, history: seq<Job>, executed: nat)
    requires AllFiles(files, sync, start, history, executed, Running)
    ensures AllFiles(files, sync, start, history, executed, Stopped(executed, false))
  {
    hide Replay, Mirrored, Sealed;
  }

  lemma FlushesKept(files: seq<File>, history: seq<Job>, settled: nat, f: nat, file': File)
    requires AllFlushes(files, history, settled) && f < |files| && file'.flushPending == files[f].flushPending
    ensures AllFlushes(files[f := file'], history, settled)
  {
  }

  lemma FileAt(files: seq<File>, sync: seq<SyncFile>, start: seq<Bytes>, history: seq<Job>, executed: nat, stop: Stop, f: nat)
    requires AllFiles(files, sync, start, history, executed, stop) && f < |files|
    ensures |sync| == |start| == |files| && executed <= |history|
    ensures FileOk(files[f], sync[f], start[f], history, executed, stop, f)
  {
  }

  lemma SpaceAccepted(files: seq<File>, sync: seq<SyncFile>, start: seq<Bytes>, history: seq<Job>, executed: nat, stop: Stop, settled: nat)
    requires AllFiles(files, sync, start, history, executed, stop) && AllFlushes(files, history, settled)
    requires stop.Stopped? ==> stop.at <= |history|
    ensures AllFiles(files, sync, start, history + [Space], executed, stop)
    ensures AllFlushes(files, history + [Space], settled)
  {
    hide FileOk;
    forall g | 0 <= g < |files| ensures FileOk(files[g], sync[g], start[g], history + [Space], executed, stop, g) {
      OtherJob(files[g], sync[g], start[g], history, executed, stop, g, Space);
    }
    forall g | 0 <= g < |files| ensures Coalesced((history + [Space])[settled..], g) == (if files[g].flushPending then 1 else 0) {
      TailAppend(history, Space, settled, g);
    }
  }

  lemma {:induction false} CoalescedNone(jobs: seq<Job>, f: nat)
    requires forall i :: 0 <= i < |jobs| ==> !For(jobs[i], f)
    ensures Coalesced(jobs, f) == 0
  {
    if jobs != [] { CoalescedNone(jobs[1..], f); }
  }

  lemma NewFile(files: seq<File>, sync: seq<SyncFile>, start: seq<Bytes>, history: seq<Job>, executed: nat, stop: Stop,
                file: File, position: Qword)
    requires AllFiles(files, sync, start, history, executed, stop)
    requires stop.Stopped? ==> stop.at <= executed && (stop.during ==> stop.at < executed)
    requires |file.physical| <= QWORD_MAX
    requires file == File(file.physical, false, position, |file.physical|, false, 0, false, None, [])
    ensures AllFiles(files + [file], sync + [SyncFile(file.physical, position)], start + [file.physical], history, executed, stop)
  {
    var f := |files|;
    ReplayOthers(file.physical, history, f);
    ReplayOthers(file.physical, history[..executed], f);
    if stop.Stopped? { ReplayOthers(file.physical, history[..stop.at], f); }
    assert FileOk(file, SyncFile(file.physical, position), file.physical, history, executed, stop, f);
  }

  lemma NewFlushes(files: seq<File>, sync: seq<SyncFile>, start: seq<Bytes>, history: seq<Job>, executed: nat, stop: Stop,
                   settled: nat, file: File)
    requires AllFiles(files, sync, start, history, executed, stop)
    requires AllFlushes(files, history, settled) && !file.flushPending
    ensures AllFlushes(files + [file], history, settled)
  {
    CoalescedNone(history[settled..], |files|);
  }

  lemma KnownFile(files: seq<File>, sync: seq<SyncFile>, start: seq<Bytes>, history: seq<Job>, executed: nat, stop: Stop, i: nat)
    requires AllFiles(files, sync, start, history, executed, stop) && i < |history|
    ensures !history[i].Space? ==> history[i].file < |files|
  {
  }

  lemma RunKeepsFiles(files: seq<File>, sync: seq<SyncFile>, start: seq<Bytes>, history: seq<Job>, executed: nat, stop: Stop,
                      ok: bool, files': seq<File>)
    requires AllFiles(files, sync, start, history, executed, stop) && executed < |history| && |files'| == |files|
    requires forall f :: 0 <= f < |files| ==> RunsOn(files[f], history[executed], f, stop.Stopped?, ok, files'[f])
    requires stop.Stopped? ==> stop.at <= executed
    ensures AllFiles(files', sync, start, history, executed + 1, StopAfter(stop, executed, ok))
  {
    hide FileOk, RunsOn;
    forall f | 0 <= f < |files|
      ensures FileOk(files'[f], sync[f], start[f], history, executed + 1, StopAfter(stop, executed, ok), f)
    {
      JobRan(files[f], sync[f], start[f], history, executed, stop, f, ok, files'[f]);
    }
  }

  lemma RunKeepsFlushes(files: seq<File>, history: seq<Job>, executed: nat, files': seq<File>, skip: bool, ok: bool)
    requires AllFlushes(files, history, executed) && executed < |history| && |files'| == |files|
    requires forall f :: 0 <= f < |files| ==> RunsOn(files[f], history[executed], f, skip, ok, files'[f])
    ensures AllFlushes(files', history, executed)
  {
  }

  /** Only the flag of the file whose coalesced flush has run is cleared. */
  ghost predicate Unflagging(files: seq<File>, job: Job, files': seq<File>) {
    && |files'| == |files|
    && forall f :: 0 <= f < |files| ==> files'[f] == files[f].(flushPending := files[f].flushPending && job != Flush(f, true))
  }

  lemma PublishKeeps(files: seq<File>, sync: seq<SyncFile>, start: seq<Bytes>, history: seq<Job>, done: nat, stop: Stop, files': seq<File>)
    requires AllFiles(files, sync, start, history, done + 1, stop) && AllFlushes(files, history, done) && done < |history|
    requires Unflagging(files, history[done], files')
    ensures AllFiles(files', sync, start, history, done + 1, stop)
    ensures AllFlushes(files', history, done + 1)
  {
    hide FileOk, Coalesced;
    forall f | 0 <= f < |files|
      ensures FileOk(files'[f], sync[f], start[f], history, done + 1, stop, f)
      ensures Coalesced(history[done + 1..], f) == (if files'[f].flushPending then 1 else 0)
    {
      Unflagged(files[f], sync[f], start[f], history, done + 1, stop, f, files'[f].flushPending);
      TailHead(history, done, f);
    }
  }

  lemma Unflagged(file: File, s: SyncFile, start: Bytes, history: seq<Job>, executed: nat, stop: Stop, f: nat, pending: bool)
    requires executed <= |history| && FileOk(file, s, start, history, executed, stop, f)
    ensures FileOk(file.(flushPending := pending), s, start, history, executed, stop, f)
  {
    hide Replay, Interrupted;
  }

  // ---- what no later step takes back ----

  /** What can be observed from outside between two steps; `closed` says that the handle is. */
  datatype Disk = Disk(physical: Bytes, closed: bool)
  ghost function Disks(files: seq<File>): (disks: seq<Disk>)
    ensures |disks| == |files|
  {
    seq(|files|, f requires 0 <= f < |files| => Disk(files[f].physical, files[f].handleClosed))
  }

  datatype Observed = Observed(history: seq<Job>, executed: nat, error: Option<Error>, stop: Stop, disks: seq<Disk>)

  /** A later state: accepted jobs stay accepted, the first error stays latched, after it no
      bytes of any file change, and a file whose handle is closed is not touched again. */
  ghost predicate Follows(a: Observed, b: Observed) {
    && a.history <= b.history && a.executed <= b.executed && |a.disks| <= |b.disks|
    && (a.error.Some? ==> b.error == a.error)
    && (a.stop.Stopped? ==> b.stop == a.stop)
    && (forall f :: 0 <= f < |a.disks| && (a.stop.Stopped? || a.disks[f].closed) ==> b.disks[f].physical == a.disks[f].physical)
    && (forall f :: 0 <= f < |a.disks| && a.disks[f].closed ==> b.disks[f].closed)
  }

  lemma FollowsOn(a: Observed, b: Observed, c: Observed)
    requires Follows(a, b) && Follows(b, c)
    ensures Follows(a, c)
  {
  }

  lemma FollowsItself(a: Observed)
    ensures Follows(a, a)
  {
  }

  /** A client's call only adds jobs, and touches no physical file. */
  lemma CallFollows(a: Observed, more: seq<Job>)
    ensures Follows(a, a.(history := a.history + more))
  {
  }

  lemma LatchFollows(a: Observed, first: Error)
    ensures a.error.None? ==> Follows(a, a.(error := Some(first)))
  {
  }

  /** From a failed state on, the error and the bytes of every file stay. */
  lemma Frozen(a: Observed, b: Observed, before: seq<File>, after: seq<File>)
    requires Follows(a, b) && a.disks == Disks(before) && b.disks == Disks(after)
    ensures a.error.Some? ==> b.error == a.error
    ensures a.stop.Stopped? ==> |before| <= |after| && forall f :: 0 <= f < |before| ==> after[f].physical == before[f].physical
  {
    assert forall f :: 0 <= f < |before| ==> a.disks[f].physical == before[f].physical;
  }

  lemma NewDisk(a: Observed, files: seq<File>, file: File)
    requires a.disks == Disks(files)
    ensures Follows(a, a.(disks := Disks(files + [file])))
  {
    assert forall f :: 0 <= f < |files| ==> Disks(files + [file])[f] == a.disks[f];
  }

  /** A job that spares closed files, and all bytes after a failure, takes nothing back. */
  lemma RunFollows(a: Observed, files: seq<File>, ok: bool, after: seq<File>)
    requires a.disks == Disks(files) && |after| == |files|
    requires forall f :: 0 <= f < |files| && files[f].handleClosed ==> after[f] == files[f]
    requires a.stop.Stopped? ==> forall f :: 0 <= f < |files| ==> after[f].physical == files[f].physical
    ensures Follows(a, a.(executed := a.executed + 1, stop := StopAfter(a.stop, a.executed, ok), disks := Disks(after)))
  {
  }

  lemma SpaceRuns(files: seq<File>, job: Job, skip: bool)
    requires job.Space?
    ensures forall f :: 0 <= f < |files| ==> RunsOn(files[f], job, f, skip, true, files[f])
  {
  }

  lemma OneRuns(files: seq<File>, job: Job, skip: bool, ok: bool, file: File)
    requires !job.Space? && job.file < |files| && RunsOn(files[job.file], job, job.file, skip, ok, file)
    ensures forall f :: 0 <= f < |files| ==> RunsOn(files[f], job, f, skip, ok, files[job.file := file][f])
  {
    forall f | 0 <= f < |files| ensures RunsOn(files[f], job, f, skip, ok, files[job.file := file][f]) {
      if f != job.file { assert !For(job, f); }
    }
  }

  lemma SameDisks(files: seq<File>, f: nat, file: File)
    requires f < |files| && file.physical == files[f].physical && file.handleClosed == files[f].handleClosed
    ensures Disks(files[f := file]) == Disks(files)
  {
  }

  /** Running a job changes no file whose handle is already closed. */
  lemma ClosedUntouched(files: seq<File>, sync: seq<SyncFile>, start: seq<Bytes>, history: seq<Job>, executed: nat, stop: Stop,
                        ok: bool, files': seq<File>)
    requires AllFiles(files, sync, start, history, executed, stop) && executed < |history| && |files'| == |files|
    requires forall f :: 0 <= f < |files| ==> RunsOn(files[f], history[executed], f, stop.Stopped?, ok, files'[f])
    ensures forall f :: 0 <= f < |files| && files[f].handleClosed ==> files'[f] == files[f]
    ensures stop.Stopped? ==> forall f :: 0 <= f < |files| ==> files'[f].physical == files[f].physical
  {
    hide Mirrored, Stored, Answered;
  }

  class Storage {
    const limitBytes: nat
    const limitOperations: nat

    var jobs: seq<Ticket>
    var bytes: nat
    var operations: nat
    var issued: nat
    var done: nat
    var spacePending: bool
    var space: Option<Option<nat>>
    var error: Option<Error>
    var worker: Worker
    var files: seq<File>

    /** Every accepted job, where the physical files stopped following them, what each client's
        file would be without a queue, what the files started with, and whether the system has
        refused any call of the worker. */
    ghost var history: seq<Job>
    ghost var refused: bool
    ghost var stop: Stop
    ghost var sync: seq<SyncFile>
    ghost var start: seq<Bytes>

    /** The queue's accounting; `spaces` space queries are outstanding. */
    ghost predicate QueueOk(spaces: nat)
      reads `jobs, `bytes, `operations, `issued, `done, `error, `worker, `history, `stop, `refused
    {
      && issued == |history| && Ordered(jobs, worker, history, done)
      && operations == issued - done
      && bytes == Payloads(history[done..]) <= limitBytes
      && Spaces(history[done..]) == spaces
      && Latched(error, stop, worker, done) && Blamed(error, worker, refused)
    }

    ghost predicate FilesOk()
      reads `files, `sync, `start, `history, `done, `worker, `stop
    {
      AllFiles(files, sync, start, history, Executed(done, worker), stop)
    }

    ghost predicate FlushesOk()
      reads `files, `history, `done, `worker
    {
      AllFlushes(files, history, Settled(done, worker))
    }

    ghost predicate Valid()
      reads this
    {
      QueueOk(if spacePending then 1 else 0) && FilesOk() && FlushesOk()
    }

    ghost function Seen(): Observed
      reads `files, `history, `done, `worker, `error, `stop
    {
      Observed(history, Executed(done, worker), error, stop, Disks(files))
    }

    constructor (limitBytes: nat, limitOperations: nat)
      requires limitBytes > 0 && limitOperations > 0
      ensures Valid() && files == [] && history == [] && error.None? && worker.Starting? && !refused
      ensures this.limitBytes == limitBytes && this.limitOperations == limitOperations && operations == 0 && bytes == 0 && jobs == []
    {
      this.limitBytes, this.limitOperations := limitBytes, limitOperations;
      jobs, bytes, operations, issued, done := [], 0, 0, 0, 0;
      spacePending, space, worker, files, error := false, None, Starting, [], None;
      history, sync, start, stop, refused := [], [], [], Running, false;
    }

    /** The lock-protected core of every enqueuing call. */
    method Put(job: Job, finalControl: bool, ghost spaces: nat) returns (hr: Status, sequence: nat)
      requires QueueOk(spaces)
      requires finalControl ==> Payload(job) == 0
      modifies `jobs, `issued, `operations, `bytes, `history
      ensures hr.Ok? <==> finalControl || (error.None? && old(operations) < limitOperations && Payload(job) <= limitBytes - old(bytes))
      ensures hr.Ok? ==> history == old(history) + [job] && sequence == issued == |history|
      ensures hr.Ok? ==> QueueOk(if job.Space? then spaces + 1 else spaces)
      ensures hr.Failed? ==> QueueOk(spaces) && history == old(history)
      ensures operations == old(operations) + (if hr.Ok? then 1 else 0)
      ensures bytes == old(bytes) + (if hr.Ok? && job.Write? then |job.data| else 0)
      ensures hr.Failed? ==> hr.error == if error.Some? then error.value else BufferOverflow
    {
      hide Ordered, Latched, Spaces, Payloads;
      sequence := 0;
      if !finalControl && error.Some? { return Failed(error.value), 0; }
      var size := if job.Write? then |job.data| else 0;
      if !finalControl && (operations >= limitOperations || size > limitBytes - bytes) { return Failed(BufferOverflow), 0; }
      OrderedPut(jobs, worker, history, done, job);
      TailAppend(history, job, done, 0);
      jobs := jobs + [Ticket(issued + 1, job)];
      issued, operations, bytes := issued + 1, operations + 1, bytes + size;
      history := history + [job];
      return Ok, issued;
    }

    /** Whether the lock of stream `f` is free and the stream still takes calls. */
    predicate Callable(f: nat)
      reads `files
    {
      f < |files| && files[f].reading.None?
    }

    lemma StopKnown()
      requires Valid()
      ensures issued == |history| && bytes <= limitBytes && Executed(done, worker) <= |history|
      ensures stop.Stopped? ==> stop.at <= Executed(done, worker) && (stop.during ==> stop.at < Executed(done, worker))
    {
      hide AllFiles, AllFlushes;
    }

    /** The stream's cached position and length are those of the synchronous file. */
    lemma View(f: nat)
      requires Valid() && f < |files|
      ensures issued == |history| && bytes <= limitBytes && |sync| == |start| == |files|
      ensures files[f].position == sync[f].position <= QWORD_MAX && files[f].length == |sync[f].content| <= QWORD_MAX
    {
    }

    /** An accepted call joins the history; the stream and its synchronous file move on. */
    method Accept(f: nat, job: Job, finalControl: bool, file: File, ghost s: SyncFile) returns (hr: Status, sequence: nat)
      requires Valid() && Callable(f) && !files[f].closed && For(job, f) && !job.Close? && !job.Space? && (finalControl ==> Payload(job) == 0)
      requires f < |sync| && s.content == Effect(sync[f].content, job, f) && s.position <= QWORD_MAX && |s.content| <= QWORD_MAX
      requires file == files[f].(position := s.position, length := |s.content|, reading := file.reading, flushPending := file.flushPending)
      requires if job.Read? then file.reading == Some(issued + 1) && job.position == s.position else file.reading.None?
      requires job == Flush(f, true) ==> !files[f].flushPending && file.flushPending
      requires job != Flush(f, true) ==> file.flushPending == files[f].flushPending
      modifies `jobs, `issued, `operations, `bytes, `history, `files, `sync
      ensures Valid() && Follows(old(Seen()), Seen())
      ensures hr.Ok? <==> finalControl || (error.None? && old(operations) < limitOperations && Payload(job) <= limitBytes - old(bytes))
      ensures hr.Ok? ==> files == old(files)[f := file] && sync == old(sync)[f := s]
      ensures hr.Ok? ==> history == old(history) + [job] && sequence == |history| == old(issued) + 1
      ensures hr.Failed? ==> files == old(files) && sync == old(sync) && history == old(history)
      ensures operations == old(operations) + (if hr.Ok? then 1 else 0)
      ensures bytes == old(bytes) + (if hr.Ok? && job.Write? then |job.data| else 0)
      ensures hr.Failed? ==> hr.error == if error.Some? then error.value else BufferOverflow
    {
      hide QueueOk, AllFiles, AllFlushes, Follows, Disks, Effect, For;
      StopKnown();
      View(f);
      FollowsItself(Seen());
      CallFollows(Seen(), [job]);
      ghost var was := history;
      hr, sequence := Put(job, finalControl, if spacePending then 1 else 0);
      if hr.Ok? {
        OwnAccepted(files, sync, start, was, Executed(done, worker), stop, f, job, file, s, Settled(done, worker));
        Move(f, file, s);
      }
    }

    /** One stream and its synchronous file move on; nothing physical happens. */
    method Move(f: nat, file: File, ghost s: SyncFile)
      requires QueueOk(if spacePending then 1 else 0) && f < |files| == |sync|
      requires file.physical == files[f].physical && file.handleClosed == files[f].handleClosed
      requires AllFiles(files[f := file], sync[f := s], start, history, Executed(done, worker), stop)
      requires AllFlushes(files[f := file], history, Settled(done, worker))
      modifies `files, `sync
      ensures Valid() && files == old(files)[f := file] && sync == old(sync)[f := s] && Seen() == old(Seen())
    {
      hide QueueOk, AllFiles, AllFlushes, Disks;
      SameDisks(files, f, file);
      files, sync := files[f := file], sync[f := s];
    }

    method SetLength(f: nat, length: Qword) returns (hr: Status)
      requires Valid() && Callable(f)
      modifies `jobs, `issued, `operations, `bytes, `history, `files, `sync
      ensures Valid() && Follows(old(Seen()), Seen())
      ensures old(files)[f].closed ==> hr == Failed(Shutdown)
      ensures hr.Ok? <==> !old(files)[f].closed && old(error).None? && old(operations) < limitOperations
      ensures hr.Ok? ==> |sync| == |old(sync)| && history == old(history) + [Resize(f, length)]
      ensures hr.Ok? ==>
                forall g :: 0 <= g < |sync| ==>
                  var before, after := old(sync)[g], sync[g];
                  if g != f then after == before
                  else && after.position == before.position && |after.content| == length
                       && forall i :: 0 <= i < length ==> after.content[i] == if i < |before.content| then before.content[i] else 0
      ensures hr.Ok? ==> files == old(files)[f := old(files)[f].(length := length)]
      ensures hr.Failed? ==> sync == old(sync) && history == old(history) && files == old(files)
    {
      hide Valid, Follows, Disks;
      FollowsItself(Seen());
      if files[f].closed { return Failed(Shutdown); }
      View(f);
      ResizedBytes(sync[f].content, length);
      var sequence;
      hr, sequence := Accept(f, Resize(f, length), false, files[f].(length := length), SyncResize(sync[f], length));
    }

    method Write(f: nat, data: Bytes) returns (hr: Status, written: nat)
      requires Valid() && Callable(f)
      modifies `jobs, `issued, `operations, `bytes, `history, `files, `sync
      ensures Valid() && Follows(old(Seen()), Seen())
      ensures old(files)[f].closed ==> hr == Failed(Shutdown)
      ensures hr.Ok? ==> written == |data| && |sync| == |old(sync)|
      ensures hr.Ok? ==>
                forall g :: 0 <= g < |sync| ==>
                  var before, after := old(sync)[g], sync[g];
                  var end := before.position + |data|;
                  if g != f then after == before
                  else && after.position == end
                       && (data == [] ==> after.content == before.content)
                       && (data != [] ==>
                             && |after.content| == (if end > |before.content| then end else |before.content|)
                             && forall i :: 0 <= i < |after.content| ==>
                                  after.content[i] == if before.position <= i < end then data[i - before.position]
                                                      else if i < |before.content| then before.content[i] else 0)
      ensures hr.Ok? ==> history == old(history) + if data == [] then [] else [Job.Write(f, old(sync)[f].position, data)]
      ensures hr.Ok? ==> files == old(files)[f := old(files)[f].(position := sync[f].position, length := |sync[f].content|)]
      ensures hr.Failed? ==> written == 0 && sync == old(sync) && history == old(history) && files == old(files)
      ensures hr.Ok? <==> !old(files)[f].closed && old(error).None? && |data| <= QWORD_MAX - old(sync)[f].position
                          && old(operations) < limitOperations && |data| <= limitBytes - old(bytes)
      ensures bytes == old(bytes) + written && operations == old(operations) + (if hr.Ok? && data != [] then 1 else 0)
    {
      hide Valid, Follows, Disks;
      FollowsItself(Seen());
      written := 0;
      if files[f].closed { return Failed(Shutdown), 0; }
      View(f);
      WrittenBytes(sync[f].content, files[f].position, data);
      if |data| > QWORD_MAX - files[f].position { return Failed(InvalidArg), 0; }
      if error.Some? { return Failed(error.value), 0; }
      if operations >= limitOperations || |data| > limitBytes - bytes { return Failed(BufferOverflow), 0; }
      if data == [] {
        assert sync[f := SyncWrite(sync[f], data)] == sync;
        return Ok, 0;
      }
      var end := files[f].position + |data|;
      var file := files[f].(position := end, length := if files[f].length < end then end else files[f].length);
      var sequence;
      hr, sequence := Accept(f, Job.Write(f, files[f].position, data), false, file, SyncWrite(sync[f], data));
      written := |data|;
    }

    method Reposition(f: nat, position: Qword)
      requires Valid() && Callable(f) && f < |sync|
      modifies `files, `sync
      ensures Valid() && Seen() == old(Seen())
      ensures files == old(files)[f := old(files)[f].(position := position)]
      ensures sync == old(sync)[f := old(sync)[f].(position := position)]
    {
      hide QueueOk, AllFiles, AllFlushes, FileOk, Disks;
      var file := files[f].(position := position);
      FileAt(files, sync, start, history, Executed(done, worker), stop, f);
      Sought(files[f], sync[f], start[f], history, Executed(done, worker), stop, f, position);
      FileReplaced(files, sync, start, history, Executed(done, worker), stop, f, file, sync[f].(position := position));
      FlushesKept(files, history, Settled(done, worker), f, file);
      Move(f, file, sync[f].(position := position));
    }

    /** Moves the position; the arguments and the result are signed 64-bit file offsets. */
    method Seek(f: nat, origin: Origin, offset: int, flagsOk: bool) returns (hr: Status)
      requires Valid() && Callable(f)
      modifies `files, `sync
      ensures Valid() && Follows(old(Seen()), Seen())
      ensures hr.Ok? <==>
                var base := if origin.Begin? then 0 else old(sync)[f].position;
                && !old(files)[f].closed && !origin.OtherOrigin? && flagsOk && error.None?
                && base <= INT64_MAX && 0 <= base + offset <= INT64_MAX
      ensures hr.Ok? ==> sync == old(sync)[f := old(sync)[f].(position := (if origin.Begin? then 0 else old(sync)[f].position) + offset)]
      ensures hr.Ok? ==> files == old(files)[f := old(files)[f].(position := sync[f].position)]
      ensures hr.Failed? ==> sync == old(sync) && files == old(files)
    {
      hide Valid, Follows, Disks;
      FollowsItself(Seen());
      View(f);
      if files[f].closed { return Failed(Shutdown); }
      if origin.OtherOrigin? || !flagsOk { return Failed(InvalidArg); }
      var base: int := if origin.Begin? then 0 else files[f].position;
      if base > INT64_MAX || offset < -base || offset > INT64_MAX - base { return Failed(InvalidArg); }
      if error.Some? { return Failed(error.value); }
      var position := base + offset;
      Reposition(f, position);
      return Ok;
    }

    /** First half of a read: the job is queued and the stream stays locked. */
    method BeginRead(f: nat, count: nat) returns (hr: Status, sequence: nat)
      requires Valid() && Callable(f)
      modifies `jobs, `issued, `operations, `bytes, `history, `files, `sync
      ensures Valid() && Follows(old(Seen()), Seen()) && sync == old(sync)
      ensures hr.Ok? <==> !old(files)[f].closed
      ensures hr.Ok? ==> files == old(files)[f := old(files)[f].(reading := Some(sequence))]
      ensures hr.Ok? ==> sequence == |history| && history == old(history) + [Job.Read(f, sync[f].position, count)]
      ensures hr.Failed? ==> history == old(history) && files == old(files)
    {
      hide Valid, Follows, Disks;
      FollowsItself(Seen());
      sequence := 0;
      if files[f].closed { return Failed(Shutdown), 0; }
      View(f);
      hr, sequence := Accept(f, Job.Read(f, files[f].position, count), true, files[f].(reading := Some(issued + 1)), sync[f]);
      assert sync == old(sync);
    }

    /** Second half, once the job is done: the bytes are those of the synchronous file. */
    method EndRead(f: nat) returns (hr: Status, data: Bytes)
      requires Valid() && f < |files| && files[f].reading.Some? && files[f].reading.value <= done
      modifies `files, `sync
      ensures Valid() && Follows(old(Seen()), Seen()) && |sync| == |files|
      ensures files == old(files)[f := old(files)[f].(reading := None, position := sync[f].position)]
      ensures hr.Ok? <==> error.None?
      ensures hr.Ok? ==>
                var count, s := old(history)[old(files)[f].reading.value - 1].count, old(sync)[f];
                && |data| == (if s.position >= |s.content| then 0
                              else if s.position + count <= |s.content| then count else |s.content| - s.position)
                && (forall i :: 0 <= i < |data| ==> data[i] == s.content[s.position + i])
                && sync == old(sync)[f := s.(position := s.position + |data|)]
      ensures hr.Failed? ==> sync == old(sync) && hr.error == error.value && data == []
    {
      hide Valid, Follows, Disks, ReadAt;
      FollowsItself(Seen());
      View(f);
      ReadDone(f);
      ReadBytes(sync[f].content, sync[f].position, history[files[f].reading.value - 1].count);
      var file := files[f].(reading := None);
      ghost var s := sync[f];
      data := [];
      if error.None? {
        data := files[f].buffer;
        file := file.(position := file.position + |data|);
        s := s.(position := s.position + |data|);
        hr := Ok;
      } else {
        hr := Failed(error.value);
      }
      Reread(f, file, s);
    }

    /** The read has been answered, rightly so if nothing had failed before. */
    lemma ReadDone(f: nat)
      requires Valid() && f < |files| && files[f].reading.Some? && files[f].reading.value <= done
      ensures |sync| == |start| == |files| && Executed(done, worker) <= |history|
      ensures 0 < files[f].reading.value <= |history| && history[files[f].reading.value - 1].Read?
      ensures FileOk(files[f].(reading := None), sync[f], start[f], history, Executed(done, worker), stop, f)
      ensures error.None? ==>
                var next := SyncRead(sync[f], history[files[f].reading.value - 1].count);
                && files[f].buffer == next.0 && next.1 == sync[f].(position := sync[f].position + |files[f].buffer|)
                && FileOk(files[f].(reading := None, position := next.1.position), next.1, start[f], history, Executed(done, worker), stop, f)
    {
      hide AllFiles, AllFlushes, FileOk, Ordered, SyncRead;
      FileAt(files, sync, start, history, Executed(done, worker), stop, f);
      ReadEnds(files[f], sync[f], start[f], history, Executed(done, worker), stop, f);
    }

    method Reread(f: nat, file: File, ghost s: SyncFile)
      requires Valid() && f < |files| == |sync| == |start| && Executed(done, worker) <= |history|
      requires file == files[f].(reading := None, position := file.position)
      requires FileOk(file, s, start[f], history, Executed(done, worker), stop, f)
      modifies `files, `sync
      ensures Valid() && Seen() == old(Seen()) && files == old(files)[f := file] && sync == old(sync)[f := s]
    {
      hide QueueOk, AllFiles, AllFlushes, FileOk, Disks;
      FileReplaced(files, sync, start, history, Executed(done, worker), stop, f, file, s);
      FlushesKept(files, history, Settled(done, worker), f, file);
      Move(f, file, s);
    }

    /** A durability request; `coalesced` ones do nothing while another one is on its way. */
    method RequestFlush(f: nat) returns (hr: Status)
      requires Valid() && Callable(f)
      modifies `jobs, `issued, `operations, `bytes, `history, `files, `sync
      ensures Valid() && Follows(old(Seen()), Seen()) && sync == old(sync)
      ensures old(files)[f].closed ==> hr == Failed(Shutdown)
      ensures old(files)[f].flushPending || hr.Failed? ==> history == old(history) && files == old(files)
      ensures hr.Ok? <==> !old(files)[f].closed && old(error).None? && (old(files)[f].flushPending || old(operations) < limitOperations)
      ensures hr.Ok? ==> files == old(files)[f := old(files)[f].(flushPending := true)]
      ensures hr.Ok? && !old(files)[f].flushPending ==> history == old(history) + [Job.Flush(f, true)]
    {
      hide Valid, Follows, Disks;
      FollowsItself(Seen());
      if files[f].closed { return Failed(Shutdown); }
      if files[f].flushPending {
        assert files[f := files[f].(flushPending := true)] == files;
        return if error.Some? then Failed(error.value) else Ok;
      }
      View(f);
      var sequence;
      hr, sequence := Accept(f, Job.Flush(f, true), false, files[f].(flushPending := true), sync[f]);
      assert sync == old(sync);
    }

    /** First half of a blocking flush. */
    method BeginFlush(f: nat) returns (hr: Status, sequence: nat)
      requires Valid() && Callable(f)
      modifies `jobs, `issued, `operations, `bytes, `history, `files, `sync
      ensures Valid() && Follows(old(Seen()), Seen()) && files == old(files) && sync == old(sync)
      ensures hr.Ok? <==> !files[f].closed
      ensures hr.Ok? ==> history == old(history) + [Job.Flush(f, false)] && sequence == |history|
      ensures hr.Failed? ==> history == old(history)
    {
      hide Valid, Follows, Disks;
      FollowsItself(Seen());
      sequence := 0;
      if files[f].closed { return Failed(Shutdown), 0; }
      View(f);
      hr, sequence := Accept(f, Job.Flush(f, false), true, files[f], sync[f]);
      assert files == old(files) && sync == old(sync);
    }

    /** Seals a file: its closing job is queued once, and the stream takes no further calls. */
    method Seal(f: nat) returns (sequence: nat)
      requires Valid() && Callable(f)
      modifies `jobs, `issued, `operations, `bytes, `history, `files, `sync
      ensures Valid() && Follows(old(Seen()), Seen()) && sync == old(sync)
      ensures files == old(files)[f := old(files)[f].(closed := true, sealedSequence := sequence)]
      ensures files[f].closed && sequence == files[f].sealedSequence
      ensures history == if old(files)[f].closed then old(history) else old(history) + [Close(f)]
    {
      hide Valid, Follows, Disks;
      if files[f].closed {
        FollowsItself(Seen());
        assert files[f := files[f].(closed := true, sealedSequence := files[f].sealedSequence)] == files;
        return files[f].sealedSequence;
      }
      sequence := AcceptClose(f);
    }

    method AcceptClose(f: nat) returns (sequence: nat)
      requires Valid() && Callable(f) && !files[f].closed
      modifies `jobs, `issued, `operations, `bytes, `history, `files, `sync
      ensures Valid() && Follows(old(Seen()), Seen()) && sync == old(sync)
      ensures files == old(files)[f := old(files)[f].(closed := true, sealedSequence := sequence)]
      ensures history == old(history) + [Close(f)] && sequence == |history|
    {
      hide QueueOk, AllFiles, AllFlushes, Follows, Disks;
      StopKnown();
      View(f);
      CallFollows(Seen(), [Close(f)]);
      ghost var was := history;
      var hr;
      hr, sequence := Put(Close(f), true, if spacePending then 1 else 0);
      var file := files[f].(closed := true, sealedSequence := sequence);
      CloseAccepted(files, sync, start, was, Executed(done, worker), stop, f, file, Settled(done, worker));
      assert sync[f := sync[f]] == sync;
      Move(f, file, sync[f]);
    }

    /** Without an error, a client that waited for a sequence number finds every call accepted
        up to it in the physical files, and a file that got no later call complete. */
    method Wait(sequence: nat) returns (hr: Status)
      requires Valid() && sequence <= done
      ensures hr == if error.Some? then Failed(error.value) else Ok
      ensures |sync| == |start| == |files|
      ensures hr.Ok? ==> forall f :: 0 <= f < |files| ==> Holds(files[f], start[f], history, sequence, f)
      ensures hr.Ok? ==>
                forall f :: 0 <= f < |files| && (forall i :: sequence <= i < |history| ==> history[i].Space? || history[i].file != f) ==>
                  files[f].physical == sync[f].content
    {
      hide Valid, Holds;
      Views();
      if error.Some? { return Failed(error.value); }
      forall f | 0 <= f < |files|
        ensures Holds(files[f], start[f], history, sequence, f)
        ensures Untouched(history, sequence, f) ==> files[f].physical == sync[f].content
      {
        Durable(f, sequence);
      }
      return Ok;
    }

    lemma NoneInvented()
      requires Valid()
      ensures error.Some? ==> refused
    {
      hide AllFiles, AllFlushes, Ordered, Latched;
    }

    lemma ErrorStops()
      requires Valid()
      ensures error.Some? ==> stop.Stopped?
    {
      hide AllFiles, AllFlushes;
    }

    lemma Views()
      requires Valid()
      ensures |sync| == |start| == |files|
    {
      hide QueueOk, AllFlushes, FileOk;
    }

    /** Another file joins the queue, positioned and sized as it is found. */
    method Sibling(content: Bytes, position: Qword) returns (f: nat)
      requires Valid() && |content| <= QWORD_MAX
      modifies `files, `sync, `start
      ensures Valid() && Follows(old(Seen()), Seen()) && f == |old(files)| && Callable(f)
      ensures files == old(files) + [files[f]] && sync == old(sync) + [SyncFile(content, position)] && start == old(start) + [content]
      ensures files[f].physical == content && !files[f].closed
    {
      hide QueueOk, AllFiles, AllFlushes, Follows, Disks;
      StopKnown();
      f := |files|;
      var file := File(content, false, position, |content|, false, 0, false, None, []);
      NewFile(files, sync, start, history, Executed(done, worker), stop, file, position);
      NewFlushes(files, sync, start, history, Executed(done, worker), stop, Settled(done, worker), file);
      NewDisk(Seen(), files, file);
      files := files + [file];
      sync := sync + [SyncFile(content, position)];
      start := start + [content];
    }

    /** Free-space queries of a named folder share the queue; one under way is not repeated. */
    method RequestSpace(named: bool) returns (hr: Status)
      requires Valid()
      modifies `jobs, `issued, `operations, `bytes, `history, `spacePending
      ensures Valid() && Follows(old(Seen()), Seen())
      ensures old(spacePending) ==> history == old(history)
      ensures !named ==> hr == Failed(InvalidArg)
      ensures hr.Ok? <==> named && old(error).None? && (old(spacePending) || old(operations) < limitOperations)
      ensures hr.Ok? ==> spacePending && (!old(spacePending) ==> history == old(history) + [Space])
      ensures hr.Failed? ==> history == old(history) && spacePending == old(spacePending)
    {
      hide QueueOk, AllFiles, AllFlushes, Follows, Disks;
      StopKnown();
      FollowsItself(Seen());
      CallFollows(Seen(), [Space]);
      if !named { return Failed(InvalidArg); }
      if spacePending { return if error.Some? then Failed(error.value) else Ok; }
      var sequence;
      ghost var was := history;
      hr, sequence := Put(Space, false, 0);
      if hr.Ok? {
        SpaceAccepted(files, sync, start, was, Executed(done, worker), stop, Settled(done, worker));
        spacePending := true;
      }
    }

    // ---- the worker ----

    /** A call of the system. */
    method Ask() returns (ok: bool)
      modifies `refused
      ensures refused == (old(refused) || !ok)
    {
      ok := *;
      if !ok { refused := true; }
    }

    /** The worker's thread starts; failing to do so counts as the first error, whatever has
        been accepted in the meantime. */
    method StartWorker()
      requires Valid() && worker.Starting?
      modifies `worker, `error, `stop, `refused
      ensures Valid() && Follows(old(Seen()), Seen())
      ensures refused == (old(refused) || error.Some?)
      ensures worker.Idle? && old(error).None? && stop == if error.Some? then Stopped(done, false) else Running
    {
      hide AllFiles, AllFlushes, Ordered, Disks;
      var code: nat := *;
      var success := Ask();
      if !success {
        StopsBefore(files, sync, start, history, done);
        error, stop := Some(Physical(code)), Stopped(done, false);
      }
      OrderedStarted(jobs, history, done);
      worker := Idle;
    }

    method Take()
      requires Valid() && worker.Idle? && jobs != []
      modifies `jobs, `worker
      ensures Valid() && Follows(old(Seen()), Seen())
      ensures worker == Holding(old(jobs)[0]) && jobs == old(jobs)[1..]
    {
      hide AllFiles, AllFlushes, Follows, Disks, Ordered;
      FollowsItself(Seen());
      OrderedTake(jobs, history, done);
      worker, jobs := Holding(jobs[0]), jobs[1..];
    }

    /** The physical call. After the first error only flushes and closes still reach a file. */
    method Run()
      requires Valid() && worker.Holding?
      modifies `worker, `files, `stop, `refused
      ensures Valid() && Follows(old(Seen()), Seen())
      ensures worker.Ran? && worker.ticket == old(worker).ticket
      ensures |files| == |old(files)|
      ensures forall f :: 0 <= f < |files| ==>
                RunsOn(old(files)[f], worker.ticket.job, f, old(error).Some?, worker.result.Ok?, files[f])
      ensures error.Some? ==> forall f :: 0 <= f < |files| ==> files[f].physical == old(files)[f].physical
      ensures stop == StopAfter(old(stop), done, worker.result.Ok?)
      ensures worker.ticket.job.Space? ==> worker.result.Ok?
      ensures (old(refused) ==> refused) && (refused ==> old(refused) || worker.result.Failed?)
    {
      hide Valid, Follows, Disks, RunsOn, StopAfter;
      JobHeld();
      var job := worker.ticket.job;
      var hr: Status := if error.Some? then Failed(error.value) else Ok;
      var after := files;
      if job.Space? {
        hr := Ok;
        SpaceRuns(files, job, error.Some?);
      } else {
        var file := files[job.file];
        hr, file := Perform(job, file, hr);
        OneRuns(files, job, error.Some?, hr.Ok?, file);
        after := files[job.file := file];
      }
      Record(hr, after);
    }

    lemma JobHeld()
      requires Valid() && worker.Holding?
      ensures done < |history| && worker.ticket == Ticket(done + 1, history[done])
      ensures !history[done].Space? ==> history[done].file < |files|
      ensures (error.Some? <==> stop.Stopped?) && (error.Some? ==> refused)
    {
      hide AllFiles, AllFlushes, Ordered, Latched;
      OrderedHeld(jobs, worker, worker, history, done);
      LatchedRan(error, stop, worker.ticket, done, Ok);
      KnownFile(files, sync, start, history, done, stop, done);
    }

    /** The outcome of the job, before anyone hears of it. */
    method Record(hr: Status, after: seq<File>)
      requires Valid() && worker.Holding? && |after| == |files|
      requires forall f :: 0 <= f < |files| ==> RunsOn(files[f], worker.ticket.job, f, error.Some?, hr.Ok?, after[f])
      requires hr.Failed? ==> refused
      modifies `worker, `files, `stop
      ensures Valid() && Follows(old(Seen()), Seen())
      ensures worker == Ran(old(worker).ticket, hr) && files == after && stop == StopAfter(old(stop), done, hr.Ok?)
      ensures error.Some? ==> forall f :: 0 <= f < |files| ==> files[f].physical == old(files)[f].physical
    {
      hide AllFiles, AllFlushes, Ordered, Latched, RunsOn, StopAfter, Follows, Disks;
      JobHeld();
      OrderedHeld(jobs, worker, Ran(worker.ticket, hr), history, done);
      LatchedRan(error, stop, worker.ticket, done, hr);
      RunKeepsFiles(files, sync, start, history, done, stop, hr.Ok?, after);
      RunKeepsFlushes(files, history, done, after, error.Some?, hr.Ok?);
      ClosedUntouched(files, sync, start, history, done, stop, hr.Ok?, after);
      RunFollows(Seen(), files, hr.Ok?, after);
      files, stop := after, StopAfter(stop, done, hr.Ok?);
      worker := Ran(worker.ticket, hr);
    }

    /** One physical call on one file; any of them may fail, a write after a prefix. */
    method Perform(job: Job, file: File, latched: Status) returns (hr: Status, file': File)
      requires Valid() && !job.Space?
      modifies `refused
      ensures Valid()
      ensures hr.Failed? ==> latched.Failed? || refused
      ensures refused ==> old(refused) || hr.Failed?
      ensures old(refused) ==> refused
      ensures RunsOn(file, job, job.file, latched.Failed?, hr.Ok?, file')
      ensures latched.Failed? && !job.Flush? && !job.Close? ==> hr == latched
    {
      hide AllFiles, AllFlushes, Ordered, Latched;
      var code: nat := *;
      if latched.Failed? && !job.Flush? && !job.Close? { return latched, file; }
      var success := Ask();
      file', hr := file, if success then Ok else Failed(Physical(code));
      match job {
        case Flush(_, _) =>
        case Close(_) =>
          file' := file.(handleClosed := true);
        case Resize(_, length) =>
          if success { file' := file.(physical := ResizeTo(file.physical, length)); }
        case Write(_, position, data) =>
          var n :| 0 <= n <= |data| && (success ==> n == |data|);
          file' := file.(physical := WriteAt(file.physical, position, data[..n]));
          assert data[..|data|] == data;
        case Read(_, position, count) =>
          var garbage := *;
          file' := file.(buffer := if success then ReadAt(file.physical, position, count) else garbage);
      }
    }

    /** The first failure is latched; a coalesced flush makes room for the next one. */
    method Publish()
      requires Valid() && worker.Ran?
      modifies `worker, `files, `error
      ensures Valid() && Follows(old(Seen()), Seen())
      ensures worker == Worker.Published(old(worker).ticket)
      ensures error == if old(error).None? && old(worker).result.Failed? then Some(old(worker).result.error) else old(error)
      ensures |files| == |old(files)| && Unflagging(old(files), worker.ticket.job, files)
    {
      hide Valid, Follows, Disks;
      var ticket, result := worker.ticket, worker.result;
      Unflag(ticket.job);
      Announce(ticket, result);
    }

    /** A coalesced flush that has run makes room for the next one. */
    method Unflag(job: Job)
      requires Valid() && worker.Ran? && job == worker.ticket.job
      modifies `files
      ensures |files| == |old(files)| && Disks(files) == Disks(old(files)) && Unflagging(old(files), job, files)
      ensures QueueOk(if spacePending then 1 else 0) && done < |history| && history[done] == job
      ensures AllFiles(files, sync, start, history, done + 1, stop) && AllFlushes(files, history, done + 1)
    {
      hide AllFiles, AllFlushes, Disks, Ordered, Latched;
      OrderedHeld(jobs, worker, worker, history, done);
      KnownFile(files, sync, start, history, done + 1, stop, done);
      ghost var was := files;
      if job.Flush? && job.coalesced {
        SameDisks(files, job.file, files[job.file].(flushPending := false));
        files := files[job.file := files[job.file].(flushPending := false)];
      }
      PublishKeeps(was, sync, start, history, done, stop, files);
    }

    /** The outcome becomes known. */
    method Announce(ticket: Ticket, result: Status)
      requires worker == Ran(ticket, result) && QueueOk(if spacePending then 1 else 0)
      requires AllFiles(files, sync, start, history, done + 1, stop) && AllFlushes(files, history, done + 1)
      modifies `worker, `error
      ensures Valid() && Follows(old(Seen()), Seen()) && worker == Worker.Published(ticket)
      ensures error == if old(error).None? && result.Failed? then Some(result.error) else old(error)
    {
      hide AllFiles, AllFlushes, Follows, Disks, Ordered, Latched, Payloads, Spaces;
      FollowsItself(Seen());
      OrderedHeld(jobs, worker, Worker.Published(ticket), history, done);
      LatchedPublished(error, stop, ticket, result, done);
      if error.None? && result.Failed? {
        LatchFollows(Seen(), result.error);
        error := Some(result.error);
      }
      worker := Worker.Published(ticket);
    }

    /** The job leaves the accounts and waiting clients may look again. */
    method Complete()
      requires Valid() && worker.Published?
      modifies `worker, `bytes, `operations, `done, `spacePending, `space
      ensures Valid() && Follows(old(Seen()), Seen())
      ensures worker.Idle? && done == old(done) + 1 && operations == old(operations) - 1
      ensures bytes == old(bytes) - (if old(worker).ticket.job.Write? then |old(worker).ticket.job.data| else 0)
      ensures old(worker).ticket.job.Space? ==> !spacePending && space.Some?
      ensures !old(worker).ticket.job.Space? ==> spacePending == old(spacePending) && space == old(space)
    {
      hide AllFiles, AllFlushes, Follows, Disks, Ordered, Latched, Spaces, Payloads;
      FollowsItself(Seen());
      var ticket := worker.ticket;
      OrderedHeld(jobs, worker, worker, history, done);
      LatchedCompleted(error, stop, ticket, done);
      TailHead(history, done, 0);
      bytes := bytes - (if ticket.job.Write? then |ticket.job.data| else 0);
      operations, done := operations - 1, ticket.sequence;
      if ticket.job.Space? {
        var queried := *;
        space, spacePending := Some(queried), false;
      }
      worker := Idle;
    }

    // ---- what the queue guarantees ----

    /** Write-behind refines a synchronous file: while nothing has failed, applying the jobs the
        worker has not run yet to a physical file gives exactly the synchronous contents. */
    lemma Refines(f: nat)
      requires Valid() && f < |files| && stop.Running?
      ensures Replay(files[f].physical, history[Executed(done, worker)..], f) == sync[f].content
      ensures files[f].length == |sync[f].content| && files[f].position == sync[f].position
    {
      hide Replay;
      var executed := Executed(done, worker);
      FileAt(files, sync, start, history, executed, stop, f);
      ReplayCompose(start[f], history[..executed], history[executed..], f);
      assert history[..executed] + history[executed..] == history;
    }

    /** After a flush or close with this sequence number was waited for without an error, every
        call accepted before it is in the physical file; if none followed, that is all of them. */
    lemma Durable(f: nat, sequence: nat)
      requires Valid() && f < |files| && sequence <= done && error.None?
      ensures |sync| == |start| == |files|
      ensures Holds(files[f], start[f], history, sequence, f)
      ensures Untouched(history, sequence, f) ==> files[f].physical == sync[f].content
    {
      hide Replay;
      var executed := Executed(done, worker);
      FileAt(files, sync, start, history, executed, stop, f);
      var at := if stop.Running? then executed else stop.at;
      assert sequence <= at <= |history|;
      if Untouched(history, sequence, f) { SinceIdle(start[f], history, at, f); }
    }

    /** A sealed file: one closing job, after which the file is neither named nor touched, and
        once that job has run without an earlier failure the file is complete. */
    lemma SealedOnce(f: nat)
      requires Valid() && f < |files| && files[f].closed
      ensures forall i :: 0 <= i < |history| && history[i] == Close(f) ==> i == files[f].sealedSequence - 1
      ensures forall i :: files[f].sealedSequence <= i < |history| ==> !For(history[i], f)
      ensures files[f].handleClosed <==> files[f].sealedSequence <= Executed(done, worker)
      ensures files[f].handleClosed && stop.Running? ==> files[f].physical == sync[f].content
    {
      hide Replay;
      var executed := Executed(done, worker);
      FileAt(files, sync, start, history, executed, stop, f);
      if files[f].handleClosed { SinceIdle(start[f], history, executed, f); }
    }

    /** After the first failure the files hold a prefix of the accepted jobs, the same prefix
        for all siblings, plus at most part of the write that failed. */
    lemma FailureFreezes(f: nat)
      requires Valid() && f < |files| && stop.Stopped?
      ensures stop.at <= Executed(done, worker) <= |history|
      ensures !stop.during ==> files[f].physical == Replay(start[f], history[..stop.at], f)
      ensures stop.during ==> stop.at < |history| && Interrupted(Replay(start[f], history[..stop.at], f), history[stop.at], f, files[f].physical)
    {
    }

    // ---- any run ----

    /** Some call of a client on one stream. */
    method AnyCall(f: nat)
      requires Valid() && Callable(f)
      modifies `jobs, `issued, `operations, `bytes, `history, `files, `sync
      ensures Valid() && Follows(old(Seen()), Seen())
    {
      hide Valid, Follows, Seen;
      var pick: nat := *;
      var hr, sequence, written;
      match pick {
        case 0 =>
          var length: Qword := *;
          hr := SetLength(f, length);
        case 1 =>
          var data: Bytes := *;
          hr, written := Write(f, data);
        case 2 =>
          var origin, offset, flagsOk := *, *, *;
          hr := Seek(f, origin, offset, flagsOk);
        case 3 =>
          var count: nat := *;
          hr, sequence := BeginRead(f, count);
        case 4 => hr := RequestFlush(f);
        case 5 => hr, sequence := BeginFlush(f);
        case _ => sequence := Seal(f);
      }
    }

    /** How many steps the worker has to take until everything is done. */
    function Left(): nat
      reads `jobs, `worker
    {
      4 * |jobs| + match worker
                   case Starting => 1
                   case Idle => 0
                   case Holding(_) => 3
                   case Ran(_, _) => 2
                   case Published(_) => 1
    }

    /** The next step of the worker, if it has anything to do. */
    method WorkerStep()
      requires Valid()
      modifies `worker, `jobs, `files, `stop, `error, `refused, `bytes, `operations, `done, `spacePending, `space
      ensures Valid() && Follows(old(Seen()), Seen())
      ensures if old(Left()) > 0 then Left() == old(Left()) - 1 else Left() == 0
      ensures |files| == |old(files)|
      ensures old(refused) ==> refused
    {
      hide Valid, Follows, Seen;
      FollowsItself(Seen());
      match worker {
        case Starting => StartWorker();
        case Idle => if jobs != [] { Take(); }
        case Holding(_) => Run();
        case Ran(_, _) => Publish();
        case Published(_) => Complete();
      }
    }

    /** One atomic step of any client or of the worker. */
    method AnyStep()
      requires Valid()
      modifies this
      ensures Valid() && Follows(old(Seen()), Seen())
    {
      hide Valid, Follows, Seen, Callable;
      FollowsItself(Seen());
      var pick, f: nat := *, *;
      if pick == 0 {
        WorkerStep();
      } else if pick == 1 {
        var named: bool := *;
        var hr := RequestSpace(named);
      } else if pick == 2 {
        var content: Bytes, position: Qword := *, *;
        if |content| <= QWORD_MAX { f := Sibling(content, position); }
      } else if f < |files| && files[f].reading.Some? {
        if files[f].reading.value <= done { var hr, data := EndRead(f); }
      } else if Callable(f) {
        AnyCall(f);
      }
    }

    /** Any interleaving: accepted jobs stay accepted, the first error stays, and from the first
        failure on no byte of any file changes any more. */
    method AnyRun(steps: nat)
      requires Valid()
      modifies this
      ensures Valid() && Follows(old(Seen()), Seen())
      ensures old(error).Some? ==> error == old(error)
      ensures old(error).Some? ==> |old(files)| <= |files| && forall f :: 0 <= f < |old(files)| ==> files[f].physical == old(files)[f].physical
      ensures error.Some? ==> refused
    {
      hide Valid, Follows, Disks;
      ErrorStops();
      FollowsItself(Seen());
      for i := 0 to steps
        invariant Valid() && Follows(old(Seen()), Seen())
      {
        ghost var before := Seen();
        AnyStep();
        FollowsOn(old(Seen()), before, Seen());
      }
      NoneInvented();
      Frozen(old(Seen()), Seen(), old(files), files);
    }

    /** The accounts: outstanding jobs and payload, and the subtraction that cannot wrap. */
    lemma Accounts()
      requires Valid()
      ensures operations == issued - done && bytes == Payloads(history[done..]) <= limitBytes
      ensures issued == |history|
      ensures |jobs| + (if EmptyHanded(worker) then 0 else 1) == operations
    {
    }

    /** Two writes in a row at the end of a file append one after the other. */
    method AppendTwice(f: nat, first: Bytes, second: Bytes) returns (ok: bool)
      requires Valid() && Callable(f) && |sync| == |files| && sync[f].position == |sync[f].content|
      modifies `jobs, `issued, `operations, `bytes, `history, `files, `sync
      ensures Valid() && Follows(old(Seen()), Seen()) && |sync| == |old(sync)| && |files| == |old(files)|
      ensures ok ==> sync[f].content == old(sync)[f].content + first + second && sync[f].position == |sync[f].content|
      ensures ok <==> && !old(files)[f].closed && error.None? && old(operations) < limitOperations
                      && |first| + |second| <= QWORD_MAX - old(sync)[f].position && |first| + |second| <= limitBytes - old(bytes)
                      && (first == [] || old(operations) + 1 < limitOperations)
    {
      hide Valid, Follows, Seen;
      ghost var seen := Seen();
      var hr, written := Write(f, first);
      ghost var middle := Seen();
      if hr.Failed? { return false; }
      assert sync[f].content == old(sync)[f].content + first;
      hr, written := Write(f, second);
      FollowsOn(seen, middle, Seen());
      ok := hr.Ok?;
      if ok { assert sync[f].content == old(sync)[f].content + first + second; }
    }

    /** When the worker has nothing left to do, all jobs are done, without an error unless the
        system has refused something. */
    lemma NothingLeft()
      requires Valid() && Left() == 0
      ensures done == |history| && |files| == |sync| == |start|
      ensures error.Some? ==> refused
    {
      hide AllFlushes, FileOk, Latched;
    }
  }

  /** Two writes to a new file, and everything the worker then has to do: unless the system
      refuses something, the file holds the first data followed by the second. */
  method WriteTwice(limitBytes: nat, limitOperations: nat, first: Bytes, second: Bytes) returns (s: Storage, ok: bool)
    requires limitBytes > 0 && limitOperations > 0
    ensures fresh(s) && s.Valid() && |s.files| == 1
    ensures ok <==> |first| + |second| <= limitBytes && |first| + |second| <= QWORD_MAX && (first == [] || limitOperations > 1)
    ensures s.error.Some? ==> s.refused
    ensures ok && s.error.None? ==> s.files[0].physical == first + second
  {
    hide Storage.Valid, Follows, Storage.Seen;
    s := new Storage(limitBytes, limitOperations);
    var f := s.Sibling([], 0);
    s.Views();
    ok := s.AppendTwice(f, first, second);
    if ok { assert [] + first + second == first + second; }
    while s.Left() > 0
      invariant s.Valid() && |s.files| == 1 && fresh(s)
      invariant ok ==> |s.sync| == 1 && s.sync[0].content == first + second
      decreases s.Left()
    {
      s.WorkerStep();
    }
    s.NothingLeft();
    var hr := s.Wait(s.done);
  }
}
