# Recording pipeline: model and proofs

The viewer records what a capture device delivers. Pin callbacks store packets in two rings; a
worker takes them out, maps capture time to recording time across pauses, scales and converts
pictures, and feeds an encoder; a split muxer decides where one file ends and the next begins; a
write-behind queue brings the bytes to disk. This project models each of these stages in Dafny and
proves what each of them promises over whole runs. Beside them stand the PCM ring and the drift
resampler of playback, the result channel of the encoder probe, the ZIP writer of the diagnostic
report, and the settings dialog's cache of device queries.

One module is one component, in a file of the same name. Objects that the program updates in place
are classes; an operation that takes a lock is one atomic step. Value-level lemmas carry the
arguments that span steps. The main contracts are stated in fields, bytes and indices; functions
that abbreviate a computation have lemmas that say the same without them.

| part | modules | main results |
|---|---|---|
| split muxer | `SplitArchive`, `SplitMuxer` | every accepted packet is at exactly one place of the files, every cut is exact and made when due, durations telescope |
| storage | `StorageSpec`, `Storage` | write-behind refines a synchronous file; failures freeze a prefix for good; exact accounts |
| admission | `Admission` | no packet is lost at stop, no slot overwritten, no stale callback touches a ring; a start opens, and what arrives is admitted, taken and drained |
| time | `SampleClock`, `PauseTimeline`, `RecordingTimeline` | monotone, disjoint, gapless times over any sequence of pauses |
| audio | `PcmRing`, `Resampler`, `AudioChunks`, `BufferPool` | circular buffer = drop-oldest queue; compaction is invisible; chunks are all or nothing; leases never alias |
| pictures | `Arithmetic`, `Bilinear`, `PlanarFormats`, `Scaler`, `ColorTables`, `RgbConverter` | every output byte computed from the source bytes of its own component around it; error bound of the fixed-point colours; fast paths equal the general one |
| channels | `LittleEndian`, `ProbeSpec`, `ProbeChannel`, `Checksum`, `ZipFormat`, `ZipWriter` | the probe codec is a bijection with a known layout; a ZIP file has the fields of its standard at their places, and a reader gets back what was written |
| cache | `ModeCache` | a stale value is cached exactly if its query saw a multiple of 2^32 invalidations and one of them concerned its key |

Two properties are false of the code as it stands, and the model keeps the code:

* A pause trim is converted to a 32-bit sample count. Audio that would be trimmed by more than
  894784853125 ticks (24.85 hours) is trimmed by the remainder only. `PauseTimeline.TrimWraps` is a
  run of five ordinary packets on which audio overlaps. One packet is placed right if and only if
  its gap is at most that long (`PauseTimeline.AudioStart`), and a run if and only if all its trims
  fit (`PauseTimeline.TrimsFitExactly`). The whole-run theorems carry that condition as `TrimsFit`,
  which `PauseTimeline.InTimeFits` derives from the capture times alone.
* The cache's epoch is a 32-bit counter, so a query that sees 2^32 invalidations is taken for one
  of the current epoch. `ModeCache.StaleAfterWrap` is such a run: it returns a value that was
  outdated while it was being queried. A stale result is cached if and only if the dialog has not
  stopped, the invalidations since its work was taken are a multiple of 2^32, and at least one
  since its query began concerns its key (`ModeCache.Cache.Publish`); they are then at least 2^32,
  and `ModeCache.StaleExactly` says the same of every value that is still cached later.

## Model

| member | source | states |
|---|---|---|
| SplitMuxer.Muxer.Initialize | src/recording/FragmentedMp4Sink.cpp:204-319 | the streams of a file are set up once; a codec header, once known, stays known |
| SplitMuxer.Muxer.StartHeader | src/recording/FragmentedMp4Sink.cpp:320-355 | the header is written when every stream has been seen; then all packets that waited go on, in order, per stream, even when that flush starts a new part and comes back here |
| SplitMuxer.Muxer.Roomy | src/recording/FragmentedMp4Sink.cpp:348-384 | packets that could wait for the header fit the queues one after another when it is written at last, and fail only for a distance between two consecutive pictures |
| SplitMuxer.Muxer.WritePacket | src/recording/FragmentedMp4Sink.cpp:356-374 | one video packet is held back and released with the distance to the next decode time; the packet is refused exactly when that distance is not positive or not an int64 |
| SplitMuxer.Muxer.MuxPacket | src/recording/FragmentedMp4Sink.cpp:375-384 | a packet joins the end of its stream, through the queues when splitting; it is refused for lack of room exactly when the queues are full; afterwards the head picture is still queued only for want of the pictures of its reorder window, or of audio up to its time |
| SplitMuxer.Muxer.Enqueue | src/recording/FragmentedMp4Sink.cpp:375-384 | queueing keeps the byte count equal to the sum over both queues |
| SplitMuxer.Muxer.Decide | src/recording/FragmentedMp4Sink.cpp:385-427 | the wait, break and roll rules, exactly and in packet fields: a cut is made if and only if the part has video, the head is a key that can be decoded on its own and lies after the origin, the time or the length of the file is due, no queued picture is presented before it, and audio reaches it; the head waits, while more may come, exactly for its reorder window or for audio |
| SplitMuxer.Muxer.NoLeadingPicture | src/recording/FragmentedMp4Sink.cpp:385-427 | the loop over the queue decides whether any queued picture is presented before the candidate key |
| SplitMuxer.Muxer.FlushAudio | src/recording/FragmentedMp4Sink.cpp:385-427 | exactly the queued audio presented before the boundary is written, and what remains starts at or after it |
| SplitMuxer.Muxer.DrainHead | src/recording/FragmentedMp4Sink.cpp:385-427 | one turn of the drain keeps the invariant; it holds the head picture back, or writes it with times relative to its part, which is a new one holding nothing else exactly if the cut was due |
| SplitMuxer.Muxer.DrainSegments | src/recording/FragmentedMp4Sink.cpp:385-427 | when finishing, both queues end empty; otherwise the drain stops only at a picture that has to wait |
| SplitMuxer.Muxer.RollSegment | src/recording/FragmentedMp4Sink.cpp:428-454 | the finished part is closed unchanged and an empty one with the given origin takes its place; queues are untouched |
| SplitMuxer.Muxer.MuxRaw | src/recording/FragmentedMp4Sink.cpp:455-467 | a packet is appended to the open part with its times less the origin; after the trailer nothing is; nothing else fails unless a library call was refused |
| SplitMuxer.Muxer.CheckSample | src/recording/FragmentedMp4Sink.cpp:468-526 | what passes the checks has a decode time later than all before it in its stream |
| SplitMuxer.Muxer.Process | src/recording/FragmentedMp4Sink.cpp:468-526 | every sample keeps the invariant of the whole pipeline; it is refused only for its size, for a time that does not advance, for a distance between two pictures that is no positive int64, for full queues or buffers, or because something outside refused; failures are latched; queues never overflow before the header is written |
| SplitMuxer.Muxer.FlushParts | src/recording/FragmentedMp4Sink.cpp:537-546 | even after an earlier error the held packet is sent on and the queues are drained: unless one of these writes fails, nothing is left held or queued and the earlier result stands |
| SplitMuxer.Muxer.Finalize | src/recording/FragmentedMp4Sink.cpp:527-558 | success means that everything accepted has been written into some part and nothing is held or queued |
| SplitMuxer.Muxer.NothingLost | src/recording/FragmentedMp4Sink.cpp:320-427 | for any timestamps, split or not: the parts one after another are the accepted packets of each stream, in order, video with retimed positive durations |
| SplitMuxer.Muxer.FilesHold | src/recording/FragmentedMp4Sink.cpp:320-467 | after success every accepted packet is at exactly one place of the files, in the order accepted and nothing else is there: same payload, size and flags, times less the origin of its file, and a picture lasts until the next decode time |
| SplitMuxer.Muxer.ExactPartition | src/recording/FragmentedMp4Sink.cpp:385-457 | in the fields of the packets in the files: origins increase by at least the split duration, all audio of file k is presented before origin k+1, nothing in a file has a negative time, every later file opens its video with a key at time zero that can be decoded on its own, and the last file lacks neither stream |
| SplitArchive.RollPartitioned | src/recording/FragmentedMp4Sink.cpp:385-427 | why a cut is exact: no queued or later packet belongs before it, no written one after it |
| SplitArchive.TakeVideoPartitioned | src/recording/FragmentedMp4Sink.cpp:385-427 | writing the head picture keeps the partition |
| SplitArchive.QueueVideoPartitioned | src/recording/FragmentedMp4Sink.cpp:375-384 | a new picture cannot belong to a part that is already closed |
| SplitArchive.OriginsIncrease | src/recording/FragmentedMp4Sink.cpp:385-454 | origins of any two parts are apart by at least the split duration per part |
| SplitArchive.AudioOfPart | src/recording/FragmentedMp4Sink.cpp:385-427 | the audio of part k is the accepted audio filtered by presentation time alone |
| SplitArchive.VideoOfPart | src/recording/FragmentedMp4Sink.cpp:385-427 | the first picture of a later part is a key, for HEVC one that is not reordered or is an IDR picture, presented at the origin; no picture of a part is presented before its origin |
| SplitArchive.LookaheadStep | src/recording/FragmentedMp4Sink.cpp:356-374 | releasing the held packet and holding the next retimes the stream by one more |
| SplitArchive.DurationsTelescope | src/recording/FragmentedMp4Sink.cpp:356-374 | retimed durations add up to the distance between decode times |
| StorageSpec.ReplayCompose | src/recording/RecordingStorage.cpp:62-136 | replaying the rest of a history on a replayed prefix is replaying the whole history |
| StorageSpec.WrittenBytes | src/recording/RecordingStorage.cpp:117-124 | a write changes the bytes it covers and no others, and a gap before it is zeros |
| StorageSpec.ResizedBytes | src/recording/RecordingStorage.cpp:115 | a resize keeps the bytes below both lengths and fills with zeros |
| StorageSpec.ReplayOthers | src/recording/RecordingStorage.cpp:62-136 | jobs of siblings never change a file |
| Storage.Storage.Put | src/recording/RecordingStorage.cpp:62-72 | a job is accepted exactly within both limits and without an earlier error, or as a final control job; then it is last in the queue and the counts grow by one and by its payload |
| Storage.Storage.SetLength | src/recording/RecordingStorage.cpp:229-233 | accepted exactly when open, healthy and below the job limit; then the bytes below both lengths stay, the rest is zeros and the position is where it was; otherwise nothing changes; nothing physical happens |
| Storage.Storage.Write | src/recording/RecordingStorage.cpp:247-258 | accepted exactly when open, healthy, representable and within both limits; then, index by index, the data lies at the old position, bytes outside it are as before, a gap is zeros, and the position is behind the data; otherwise nothing changes; nothing physical happens |
| Storage.Storage.Seek | src/recording/RecordingStorage.cpp:263-270 | accepted exactly for representable targets, and then it is the synchronous seek of this file alone |
| Storage.Storage.BeginRead | src/recording/RecordingStorage.cpp:236-242 | a read is queued behind everything accepted before it, and its stream alone remembers the number to wait for |
| Storage.Storage.EndRead | src/recording/RecordingStorage.cpp:236-242 | the bytes read are, index by index, those of the synchronous file from the position on, as many as there are, and the position moves behind them; or the latched error is returned and nothing moves |
| Storage.Storage.BeginFlush | src/recording/RecordingStorage.cpp:271-276 | a blocking flush is queued even after an error; no file changes |
| Storage.Storage.RequestFlush | src/recording/RecordingStorage.cpp:278-283 | at most one coalesced flush of a file is outstanding; a second request adds no job |
| Storage.Storage.Seal | src/recording/RecordingStorage.cpp:180-192 | a file gets its closing job once, and is asked for its number afterwards |
| Storage.Storage.Wait | src/recording/RecordingStorage.cpp:167-169 | once all jobs up to a number have run without an error, every physical file holds every call accepted up to it, and is complete if no later call is for that file; an error is returned only if some operation of the system was refused |
| Storage.Storage.AppendTwice | src/recording/RecordingStorage.cpp:247-258 | two writes at the end of a file append one after the other, exactly when both are accepted |
| Storage.WriteTwice | src/recording/RecordingStorage.cpp:62-136 | a new queue, two writes and the worker until nothing is left: without an error the physical file is their concatenation |
| Storage.Storage.Sibling | src/recording/RecordingStorage.cpp:288-290 | another file joins the queue without touching the others |
| Storage.Storage.RequestSpace | src/recording/RecordingStorage.cpp:155-165 | at most one space query is outstanding |
| Storage.Storage.StartWorker | src/recording/RecordingStorage.cpp:73-74 | the worker may fail to start, at any time after jobs have been accepted; that is the first error and nothing is written |
| Storage.Storage.Take | src/recording/RecordingStorage.cpp:73-81 | jobs leave the queue in order |
| Storage.Storage.Run | src/recording/RecordingStorage.cpp:82-125 | one physical call on one file; after the first error only flush and close still reach a file |
| Storage.Storage.Publish | src/recording/RecordingStorage.cpp:126-128 | the first failure is latched; no later step replaces it |
| Storage.Storage.Complete | src/recording/RecordingStorage.cpp:129-133 | the job leaves the accounts, its file and its payload, and the done count reaches its number |
| Storage.Storage.Refines | src/recording/RecordingStorage.cpp:62-136 | while nothing has failed, the outstanding jobs applied to the physical bytes give the contents, length and position of the synchronous file, for every sibling and every interleaving |
| Storage.Storage.Durable | src/recording/RecordingStorage.cpp:167-192 | after a flush or close that was waited for without error, every earlier accepted call is in the physical file |
| Storage.Storage.SealedOnce | src/recording/RecordingStorage.cpp:180-192 | exactly one closing job, after all others of the file |
| Storage.Storage.FailureFreezes | src/recording/RecordingStorage.cpp:82-125 | after the first failure all siblings hold the same accepted prefix plus at most part of the failing write |
| Storage.Storage.AnyRun | src/recording/RecordingStorage.cpp:62-136 | over any interleaving of client calls and worker steps the history only grows, the first error stays and stems from a refused operation of the system, no byte of any file changes after the first failure, and a closed file is never touched again |
| Storage.Storage.Accounts | src/recording/RecordingStorage.cpp:62-72 | outstanding jobs are issued minus done, and the payload count is their payload and within the limit |
| Storage.JobRan | src/recording/RecordingStorage.cpp:82-133 | running the next job keeps every file's relation to the history, failed or not |
| Storage.FollowsOn | src/recording/RecordingStorage.cpp:62-136 | what one state promises to the next, it promises to all later ones: accepted jobs, the first error, frozen bytes, closed handles |
| Storage.ClosedUntouched | src/recording/RecordingStorage.cpp:82-125 | running a job changes no file whose handle is closed, and after a failure no physical byte at all |
| Admission.StepInv | src/recording/Recorder.cpp:93-143 | every atomic step of starting, stopping, publishing and consuming keeps the invariant |
| Admission.RunInv | src/recording/Recorder.cpp:93-143 | so does every run of any number of recordings |
| Admission.RingOwnership | src/recording/Recorder.cpp:208-216 | a callback past its second check belongs to the current recording, and nobody is resizing or freeing the rings |
| Admission.StaleCallbackLeaves | src/recording/Recorder.cpp:208-216 | over any run: a callback under way when another recording starts never gets inside and neither reserves, fills nor publishes anything before it has returned to the source, whatever happens in between |
| Admission.NoOverwrite | src/recording/Recorder.cpp:257-303 | a slot that is filled holds no packet still to be taken |
| Admission.TakesOldest | src/recording/Recorder.cpp:483-508 | the worker takes the oldest packet of the ring it saw non-empty |
| Admission.NothingLeftBehind | src/recording/RecordingAdmission.h:9-31 | leaving through the final check means that everything published was dequeued once, in order, and no callback is admitted |
| Admission.NothingPublishedAfterwards | src/recording/RecordingAdmission.h:18-31 | from then on nothing is published until another recording starts |
| Admission.Opens | src/recording/RecordingAdmission.h:9-12 | in any run, publishing while starting opens the recording and changes nothing else; otherwise it raises the stop flag |
| Admission.TailsSeen | src/recording/Recorder.cpp:483-485 | in any reachable state the worker sees a ring as non-empty if and only if something published has not been dequeued |
| Admission.Starts | src/recording/Recorder.cpp:93-143 | whenever nothing is recording the steps of a start can be taken one after another, and end recording with empty rings of the sizes asked for |
| Admission.Delivers | src/recording/Recorder.cpp:208-303 | while recording, a callback with room in its ring can take all its steps, and ends with its packets published behind the others and nothing else changed |
| Admission.Consumes | src/recording/Recorder.cpp:483-508 | a worker at the top of its loop can take the oldest packet of any non-empty ring, which is then dequeued and nothing else changed |
| Admission.Finishes | src/recording/RecordingAdmission.h:13-31 | a stopped and drained recording with nobody inside can come to its end: saved or failed, and not busy |
| Admission.GivesUp | src/recording/Recorder.cpp:259-305 | a callback that fails leaves without publishing, a failed start raises the stop flag |
| Admission.Records | src/recording/Recorder.cpp:93-508 | from any idle state there is a run that starts, publishes any batch that fits, dequeues exactly that batch and ends as saved |
| Admission.DistinctSlots | src/recording/Recorder.cpp:257-264 | positions less than a ring apart use different slots |
| PauseTimeline.RecordingPauseTimeline.Map | src/recording/RecordingPauseTimeline.h:14-38 | in the fields of the packet and of the object: which packets are refused, the offset and start of a new epoch, when the others are kept and where they are placed; a trim is the least whole number of samples that reaches the wanted time, if that number fits 32 bits |
| PauseTimeline.RecordingPauseTimeline.NeedsVideo | src/recording/RecordingPauseTimeline.h:12 | it answers true exactly when the generation lies ahead: its audio is dropped, and a video packet of it opens the epoch if and only if the answer was true |
| PauseTimeline.KeptExactly | src/recording/RecordingPauseTimeline.h:14-38 | over any run: the first picture of a later epoch is kept at the larger of the two earlier ends; a later picture is kept if and only if it is not before its epoch's start; audio with a gap up to 24.85 hours is kept if and only if its duration exceeds the ticks of the least sample count that covers the gap, and that count is its trim |
| PauseTimeline.TrimCovers | src/recording/RecordingPauseTimeline.h:23-32 | a trim reaches the cut and overshoots by less than one sample, and when it fits 32 bits |
| PauseTimeline.AudioStart | src/recording/RecordingPauseTimeline.h:23-38 | kept audio starts after the cut and after earlier audio if and only if the gap is at most 24.85 hours |
| PauseTimeline.TrimWraps | src/recording/RecordingPauseTimeline.h:28 | beyond that gap the claim fails, on a run of 100 ms audio packets and single pictures |
| PauseTimeline.InTimeFits | src/recording/RecordingPauseTimeline.h:14-38 | if no audio is delivered more than 24.85 hours after anything captured before it, all trims fit: the hypothesis of the run theorems, from the input alone |
| PauseTimeline.TrimsFitExactly | src/recording/RecordingPauseTimeline.h:23-38 | over a run, kept audio starts after its cut and after earlier audio if and only if all trims fit |
| PauseTimeline.TrimLeavesSamples | src/recording/RecordingPauseTimeline.h:23-38 | what is kept has samples left after its trim |
| PauseTimeline.RunSteady | src/recording/RecordingPauseTimeline.h:14-38 | the state after any run is consistent and anchored at a video packet of its epoch |
| PauseTimeline.PauseMapping | src/recording/RecordingPauseTimeline.h:14-38 | over any run: times are never negative, audio never overlaps, video increases, a later epoch starts after all earlier ends, one epoch shares one offset |
| PauseTimeline.ChecksNeverFire | src/recording/Recorder.cpp:511-515 | the worker's own timestamp and skip checks never fire, on the first packet kept of a stream or any later one |
| RecordingTimeline.Timeline.Push | src/recording/RecordingTimeline.h:20-56 | accepted samples determine what is written; while no write has failed a sample is refused exactly for a negative time, no duration, a first time after five seconds or video that does not advance; a failed write means that the writer refused |
| RecordingTimeline.Timeline.Finish | src/recording/RecordingTimeline.h:57-63 | the held sample is handed over once, even if that write fails; it is never refused for its timing |
| RecordingTimeline.Timeline.PrefixAudio | src/recording/RecordingTimeline.h:66-87 | the loop writes the silent chunks up to the rounded offset |
| RecordingTimeline.Timeline.Logged | src/recording/RecordingTimeline.h:20-87 | a finished recording without a failed write, in the fields of what was accepted: a lead from zero, every picture until the next, silence in chunks of 4800 samples up to the first audio, then the audio as it came |
| RecordingTimeline.VideoTiles | src/recording/RecordingTimeline.h:28-48 | video writes cover the recording from zero to its end without gap or overlap |
| RecordingTimeline.PrefixTiles | src/recording/RecordingTimeline.h:66-87 | silent chunks cover the prefix without gap or overlap |
| RecordingTimeline.PrefixRounds | src/recording/RecordingTimeline.h:66-87 | the prefix ends within half a sample of the offset, in at most fifty chunks |
| RecordingTimeline.KeptAdvances | src/recording/RecordingPauseTimeline.h:14-38 | what any run of pauses keeps of a stream strictly advances |
| RecordingTimeline.KeptApart | src/recording/RecordingPauseTimeline.h:23-38 | kept audio, as the timeline gets it, never overlaps |
| RecordingTimeline.GaplessAfterPausing | src/recording/RecordingTimeline.h:20-63 | so it is accepted sample by sample, and the finished video has no gap or overlap |
| RecordingTimeline.RecordPaused | src/recording/Recorder.cpp:508-594 | mapping and timeline run one after the other, packet by packet; after success the video log is, after a lead, exactly the pictures that were kept, at their mapped times, and the audio log silence and then exactly the kept audio; an orderly recording that starts early enough is never refused for its timing, its video tiles the recording and its audio never overlaps |
| PcmRing.Ring.PrepareWrite | src/audio/PcmPipeline.cpp:31-55 | the overflow loop ends with room for the batch, having dropped the oldest frames only, all reported |
| PcmRing.Ring.Push | src/audio/PcmPipeline.cpp:57-71 | the ring then holds the last samples of old contents and batch, all of them or as many as fit, and the published count is the number of frames held |
| PcmRing.Ring.PushConverted | src/audio/PcmPipeline.cpp:73-96 | the same for frames converted one by one into their places; a mismatched format changes nothing |
| PcmRing.ConvertedAt | src/audio/PcmPipeline.cpp:82-92 | frame i of a batch is the conversion of block i |
| PcmRing.Ring.Pop | src/audio/PcmPipeline.cpp:98-109 | as many of the oldest frames as there are, up to the number wanted, leave the ring in order; frames pushed are frames popped, dropped and held |
| PcmRing.Ring.ConfigureChannels | src/audio/PcmPipeline.cpp:22-29 | another channel count starts with an empty ring |
| PcmRing.Ring.Clear | src/audio/PcmPipeline.cpp:116-122 | the ring is empty and says so |
| PcmRing.WrappedAppend | src/audio/PcmPipeline.cpp:57-71 | storing at the write position appends, whether or not it wraps |
| PcmRing.TwoSpans | src/audio/PcmPipeline.cpp:64-67 | two contiguous copies store what frame-by-frame modulo writing stores |
| PcmRing.ConvertedConcat | src/audio/PcmPipeline.cpp:73-96 | conversion frame by frame commutes with dropping the oldest input |
| Resampler.DriftResampler.Render | src/audio/PcmPipeline.cpp:155-228 | the next outputs are spaced by the clamped ratio and appended to those before; exactly the frames needed up to the last position are taken from the ring, or all there are; fewer outputs than asked for are returned only when the source is used up |
| Resampler.DriftResampler.WholeStream | src/audio/PcmPipeline.cpp:155-228 | forgetting history is invisible: output j is the filter applied to sixteen neighbouring frames of everything ever popped, the first frame standing in before its start, around 16 plus the ratios before it |
| Resampler.DriftResampler.AppendFromRing | src/audio/PcmPipeline.cpp:247-256 | what the PCM ring pops, cut into frames, joins the end of the window; fewer frames than wanted only when the ring runs out |
| Resampler.FramesCut | src/audio/PcmPipeline.cpp:247-256 | popping interleaved samples between two frames takes whole frames and leaves whole frames |
| Resampler.FramesAt | src/audio/PcmPipeline.cpp:247-256 | frame i is made of the samples at i times the channel count |
| Resampler.DriftResampler.CompactHistory | src/audio/PcmPipeline.cpp:258-268 | erasing history keeps the buffered count and the window of every later output |
| Resampler.DriftResampler.Reset | src/audio/PcmPipeline.cpp:147-153 | a reset starts a new stream |
| Resampler.SuffixFilter | src/audio/PcmPipeline.cpp:183-223 | a window inside the kept suffix is the same window of the whole stream, and every tap index is in bounds |
| BufferPool.Pool.TryLease | src/recording/RecordingBufferPool.h:22-26 | a buffer is taken exactly when the pool holds its sole reference |
| BufferPool.Pool.AddRef | src/recording/RecordingBufferPool.h:33 | another reference to a leased buffer |
| BufferPool.Pool.Release | src/recording/RecordingBufferPool.h:34-38 | a buffer is deleted exactly once, with its last reference |
| BufferPool.Pool.Allocate | src/recording/RecordingBufferPool.h:51-60 | a new set of unleased buffers; leased old ones live on |
| BufferPool.Pool.Acquire | src/recording/RecordingBufferPool.h:63-75 | the lease returned was nobody else's; there is none only if every buffer is leased |
| BufferPool.Pool.Clear | src/recording/RecordingBufferPool.h:76 | leases outlive the pool |
| AudioChunks.Delivery.PushAudioChunks | src/recording/Recorder.cpp:168-207 | either every chunk becomes visible at once, chunk i with bytes 19200 i up to the next, its time and duration at 48 kHz and the generation, under leases that are pairwise different and were nobody's; or, whichever step failed, the visible ring and all leases are as before |
| AudioChunks.Delivery.FillAll | src/recording/Recorder.cpp:193-204 | the copy may fail at any chunk; the reserved slots keep their leases and the visible ones their packets, and if nothing fails every slot holds its piece, time and duration |
| AudioChunks.Delivery.ReserveAll | src/recording/Recorder.cpp:180-192 | a lease for every chunk, or every lease returned because fewer buffers than chunks were free |
| AudioChunks.Delivery.ReturnLeases | src/recording/Recorder.cpp:183-186 | a failed packet returns exactly the leases it had reserved |
| AudioChunks.ChunksTile | src/recording/Recorder.cpp:193-204 | the chunks joined are the packet, and in time they follow each other exactly from its start to its end |
| AudioChunks.JoinedPrefix | src/recording/Recorder.cpp:193-204 | the first n chunks are the first bytes of the packet |
| Bilinear.Taps | src/recording/RecordingScaler.h:21-28 | every target position gets two neighbouring source positions and a weight below 256, at the clamped centre |
| Bilinear.PositionIsCentre | src/recording/RecordingScaler.h:24 | pixel centres map to pixel centres, rounded down to a 256th, except at the two ends of the source |
| Bilinear.PositionOrdered | src/recording/RecordingScaler.h:24 | positions never run backwards |
| Bilinear.MixBetween | src/recording/RecordingScaler.h:78-80 | a mixed sample lies between its four sources |
| Bilinear.MixFollows | src/recording/RecordingScaler.h:78-80 | between equal rows the value follows the line from left to right, between equal columns the one from top to bottom, to within half a level, and at a sample it is that sample |
| PlanarFormats.OwnerColumn | src/recording/RecordingScaler.h:40-50 | the plane and column of a byte lead back to the byte |
| Scaler.RecordingScaler.Configure | src/recording/RecordingScaler.h:31-52 | the planes set up are those of the format, or none at native size |
| Scaler.RecordingScaler.Scale | src/recording/RecordingScaler.h:71-82 | every byte of the target is the interpolated value of its own cell; `ScaledFromSource` says what that is in source bytes |
| Scaler.RecordingScaler.Apply | src/recording/RecordingScaler.h:55-89 | the four outcomes and when each occurs; only a scaled frame touches the buffer |
| Scaler.OwnerOfOffset | src/recording/RecordingScaler.h:71-82 | a cell is written inside the target, at the byte the format gives it |
| Scaler.OffsetOfOwner | src/recording/RecordingScaler.h:71-82 | every byte of the target is exactly one cell |
| Scaler.AddressInSource | src/recording/RecordingScaler.h:71-81 | every read lies below pitch times rows, at a sample of the same plane, for any pitch that holds a row |
| Scaler.ValueBetween | src/recording/RecordingScaler.h:76-80 | each value lies between samples of its own component around it |
| Scaler.ScaledFromSource | src/recording/RecordingScaler.h:71-82 | every target sample is the nearest value to the four source samples of its own plane around it, weighted by its distance from them, for NV12 and for packed 4:2:2 |
| ColorTables.LumaAccurate | src/recording/RgbRecordingConverter.h:155-165 | a luma byte is within 0.5 + 1.5/65536 of the exact value of section 3 of ITU-R BT.709-6, and the clamp is inert |
| ColorTables.ChromaAccurate | src/recording/RgbRecordingConverter.h:155-165 | the same for a chroma byte and the mean of its four pixels; the sum fits 32 bits |
| ColorTables.SharesAddUp | src/recording/RgbRecordingConverter.h:155-158 | the table weights are those of the standard |
| ColorTables.LevelStretches | src/recording/RgbRecordingConverter.h:160-162 | limited range is stretched: 16 and below to 0, 235 and above to 255, evenly between; full range is kept |
| ColorTables.KnownColours | src/recording/RgbRecordingConverter.h:155-158 | black, white, full red and full blue, and the chroma of every grey have the codes of the standard |
| RgbConverter.Converter.Configure | src/recording/RgbRecordingConverter.h:125-171 | exactly the supported sizes and steps are accepted |
| RgbConverter.BudgetSuffices | src/recording/RgbRecordingConverter.h:166-170 | every supported size gets its full set of sixteen buffers, so the memory check never fails |
| RgbConverter.Converter.Native | src/recording/RgbRecordingConverter.h:236-242 | the native-size path reads what the general interpolation gives |
| RgbConverter.Converter.Half | src/recording/RgbRecordingConverter.h:243-252 | the half-size path averages to what the general interpolation gives |
| RgbConverter.Converter.Any | src/recording/RgbRecordingConverter.h:253-268 | the general interpolation, with every read inside the frame |
| RgbConverter.Converter.OneBlock | src/recording/RgbRecordingConverter.h:231-281 | one turn of the loop writes the six bytes of its block and no other |
| RgbConverter.Converter.Apply | src/recording/RgbRecordingConverter.h:201-293 | the outcomes, and that every output byte is the value of its cell; `LumaOfSource` and `ChromaOfSource` say what that is in source bytes |
| RgbConverter.CellAccurate | src/recording/RgbRecordingConverter.h:220-282 | no output byte of any picture is further than the error bound from the exact value of the interpolated pixels |
| RgbConverter.LumaOfSource | src/recording/RgbRecordingConverter.h:220-282 | every luma byte is within the error bound of the exact value of one pixel whose red, green and blue come from bytes 2, 1 and 0 of the source pixels; at native size these are the three bytes at its own column, in its own row or, bottom-up, the mirrored one |
| RgbConverter.ChromaOfSource | src/recording/RgbRecordingConverter.h:220-282 | the same for both chroma bytes of a block and the mean of its four pixels |
| RgbConverter.ByteIsCell | src/recording/RgbRecordingConverter.h:228-282 | every output byte is exactly one cell |
| ProbeChannel.Exchange.Encode | src/recording/EncoderProbeProcess.h:37-61 | accepted exactly when no codec has more than 64 encoders, no string is longer than 4096 and all bytes fit into 256 KiB; then the payload is the bytes of the grammar, and otherwise it is not marked complete |
| ProbeChannel.Exchange.PutText | src/recording/EncoderProbeProcess.h:46-49 | a string is appended whole, exactly when it is short enough and fits |
| ProbeChannel.Exchange.Decode | src/recording/EncoderProbeProcess.h:62-96 | the cursor reads what the grammar of the payload gives, never past its end |
| ProbeChannel.Exchange.GetText | src/recording/EncoderProbeProcess.h:73-78 | a string is read exactly when its length is allowed and its bytes are there |
| ProbeChannel.Exchanged | src/recording/EncoderProbeProcess.h:37-96 | the parent receives what the child sent, or nothing if it could not be sent |
| ProbeSpec.DecodeEncode | src/recording/EncoderProbeProcess.h:37-96 | every acceptable capability set survives the round trip |
| ProbeSpec.EncodeDecode | src/recording/EncoderProbeProcess.h:37-96 | every payload that is accepted is reproduced byte for byte |
| ProbeSpec.PayloadLaidOut | src/recording/EncoderProbeProcess.h:50-58 | codec k starts with its six flags as bits 0 to 5 and the number of its encoders, and encoder j has its name and id at their places |
| ProbeSpec.FlagsCanonical | src/recording/EncoderProbeProcess.h:82-85 | six flags and numbers up to 63 match one to one |
| Checksum.Crc | src/diagnostics/DiagnosticReport.h:123-131 | the loop over bytes and bits computes the register machine |
| Checksum.CrcTellsByte | src/diagnostics/DiagnosticReport.h:123-131 | two texts that differ in one byte have different checksums |
| Checksum.KnownChecksums | src/diagnostics/DiagnosticReport.h:123-131 | the checksums of three texts, which fix the polynomial, the first and last complement and the order of bits and bytes |
| ZipWriter.Zip | src/diagnostics/DiagnosticReport.h:137-191 | for any entries: the archive's bytes, names and contents in order, every entry's noted checksum and offset, and a length equal to the reservation |
| ZipWriter.Word | src/diagnostics/DiagnosticReport.h:132-135 | a number is appended as its low bytes, least first |
| ZipFormat.ReadArchive | src/diagnostics/DiagnosticReport.h:137-191 | a reader that starts at the end record recovers every name and byte in order, within the 16-bit and 32-bit fields (sections 4.3.16, 4.3.12 and 4.3.7 of PKWARE APPNOTE.TXT) |
| ZipFormat.CapacityExact | src/diagnostics/DiagnosticReport.h:139-142 | the reservation is the exact length |
| ZipFormat.EntryFound | src/diagnostics/DiagnosticReport.h:161-180 | a directory entry leads to its local header and data, with matching checksum and sizes |
| ZipFormat.FileLaidOut | src/diagnostics/DiagnosticReport.h:143-180 | field by field, where the local header, name and data and the directory entry of file i lie and what is in them |
| ZipFormat.EndLaidOut | src/diagnostics/DiagnosticReport.h:181-190 | and the end record |
| ZipWriter.ZippedAndRead | src/diagnostics/DiagnosticReport.h:137-191 | what is zipped within the limits is read back: as many entries, each with its own name and bytes |
| ModeCache.Cache.Request | src/ui/SettingsModeCache.h:40-58 | a value is returned exactly for a cached key; it is stale if and only if an invalidation concerning the key came between the start of its query and its publication, and then at least 2^32 came during the query; otherwise the key is being queried in this epoch or is next |
| ModeCache.Cache.Invalidate | src/ui/SettingsModeCache.h:59-64 | nothing is cached or pending any more |
| ModeCache.Cache.InvalidateDevice | src/ui/SettingsModeCache.h:65-71 | exactly the entries of the device are gone, and pending work is dropped |
| ModeCache.Cache.Stop | src/ui/SettingsModeCache.h:72-84 | no more notifications and no pending work |
| ModeCache.Cache.Take | src/ui/SettingsModeCache.h:109-118 | the worker takes the pending work, or leaves |
| ModeCache.Cache.Begin | src/ui/SettingsModeCache.h:119-126 | no query begins after a stop |
| ModeCache.Cache.Publish | src/ui/SettingsModeCache.h:127-136 | a result is cached exactly if not stopped and a multiple of 2^32 invalidations came since it was taken, and notified at most once; a stale one is cached exactly if, besides, an invalidation since its query began concerns its key |
| ModeCache.StaleExactly | src/ui/SettingsModeCache.h:40-48 | however much later: a cached value is stale if and only if some invalidation between the start of its query and its publication concerned its key, because later ones would have erased it |
| ModeCache.StaleAfterWrap | src/ui/SettingsModeCache.h:127-136 | a run that breaks freshness: 2^32 invalidations during one query, whose outdated result the next request returns |
| ModeCache.WithoutKeeps | src/ui/SettingsModeCache.h:65-71 | erasing a device keeps all other entries and their distinctness |

## Left out

- COM, Media Foundation, DirectShow, Win32 files and processes: their calls succeed or fail nondeterministically, or append to a log. A ghost flag `refused` remembers that one of them failed, and every error that the code does not raise itself is proved to come with it.
- libavformat and libavcodec: a part is a list of packets, headers and trailers are flags, and the HEVC IDR scan of a payload is a flag of the packet.
- Out-of-memory exceptions, null-pointer checks, `MF_E_SHUTDOWN` relays and presentation-clock callbacks.
- SplitMuxer.Muxer.NothingLost: is claimed for recordings without a failure; a failed roll inside `Finalize` leaves packets unwritten in the code as well.
- SplitMuxer.Muxer.FlushParts: after an earlier error the model follows the queues but not the contents of the parts.
- SplitMuxer.Muxer.Finalize: a missing output context after a failed roll is an error of the model, where the code would not reach a trailer.
- SplitMuxer.Muxer.RollSegment: calls the header step directly, because the buffer that `StartHeader` would flush again is proved empty there.
- SplitMuxer.Muxer.Decide: the length that the byte limit looks at is whatever the stream reports; sums of 64-bit times and sizes are unbounded integers; the one overflow guard of the code, in `WritePacket`, is modelled exactly.
- Storage.Storage.Write: the early capacity test and the enqueuing under two lock acquisitions are one step; the destructor's `stopping_` flag and the asynchronous Begin/End wrappers are not modelled.
- Storage.Storage.Perform: a failing physical write leaves a prefix of the data or nothing, and a failing resize leaves the file as it was; a device that corrupts or truncates other bytes is not modelled.
- Admission.StepInv: the recorder's atomics and rings are one state value and every atomic step is a function on it, because four kinds of threads interleave; steps are sequentially consistent, so acquire and release orders are not checked; waking and time-outs are not modelled, hence no liveness. A stop that stalls until a later recording may close that recording's admission, as in the code.
- Admission.RingOwnership: the pause generation a packet carries is data here; pausing is covered by the time mapping.
- PauseTimeline.PauseMapping: carries the bound on trims (see `TrimWraps` and `InTimeFits`); 64-bit overflow of tick arithmetic is not modelled.
- RecordingTimeline.RecordPaused: the order in which the worker takes packets from its two rings is an input; scaling, gain and the byte offset of a trim are not part of it.
- RecordingTimeline.Timeline.Push: the unfragmented mode passes samples through, and sample objects are values.
- BufferPool.Pool.Acquire: no other thread acts between the attempts of one scan; `TryLease` is the atomic step, and its contract holds for any interleaving.
- PcmRing.Ring.PushConverted: device frames arrive already cut into blocks, and the conversion of one frame is a parameter.
- Resampler.DriftResampler.AppendFromRing: asking for the available frames and popping them are one step, where the code takes the ring's lock twice and a push in between may drop the oldest frames.
- Resampler.DriftResampler.Render: positions are real numbers, and the windowed sinc with its rounding and clamping is a parameter applied to the window.
- AudioChunks.Delivery.PushAudioChunks: the worker does not take packets during the call; its reads only add free slots.
- Scaler.RecordingScaler.Apply: a buffer that reports more bytes than it has is not modelled; without a stride the caller promises packed rows, as in the code.
- RgbConverter.Converter.Apply: only the portable path; the AVX2 rows are floating point and keep their own error.
- ColorTables.ChromaAccurate: table entries are rounded from exact products, where the code rounds products of doubles.
- ProbeChannel.Exchange.Decode: starting, stopping and timing out the child process are not modelled; only its finished message is.
- ZipFormat.ReadArchive: the reader takes archives without comment, encryption or ZIP64, which is what the writer produces.
- Dialogs, overlays, themes, shortcuts, INI files, loggers, screenshots, device enumeration, encoder selection by real encodes, MJPEG decoding, HDR tone mapping, retry counters and watchdogs: outside this model, or settled by reading one branch.
