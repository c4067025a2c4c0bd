# Radxa Linkr debugger: stateful core

This project models the stateful buffering and protocol code of the Linkr
debugger's firmware (C) and host tools (Rust), and proves what that code is
relied on for. `dafny verify dfyconfig.toml` checks all of it.

## What is modelled

Code that updates state step by step is a class or a method with loops, proved
against functions on values; whole-run theorems are lemmas about sequences of
steps of those same functions.

- `LogicSession.dfy`: the logic capture session. A ring that the DMA fills, a
  pre-trigger window, and a reader that gets every sample or stops the session.
  The DMA fill and its commit are one step.
- `LogicRuns.dfy`: whole runs of it, told by the configuration it was started
  with and by the edges the DMA reported.
- `CaptureArena.dfy`, `ArenaThreads.dfy`: the capture arena's
  generation-stamped lease, first its locked sections one by one, then every
  interleaving of any number of threads with the hooks run outside the lock.
- `SegmentLog.dfy`, `SerialLog.dfy`, `SerialLogQueue.dfy`: the serial log
  archive. Segment files with index lines, the quota with oldest-first
  retention and its running counter, and the bounded queue between readers and
  writer. A write is visible at once and happens as a whole or not at all.
- `Utf8.dfy`: the two streaming UTF-8 decoders, of the broker and the gateway.
- `Redaction.dfy`: the redaction of shell bookkeeping, on texts and on streams.
- `Broker.dfy`, `BrokerRuns.dfy`: the serial broker, first the locked sections
  of a channel, then all clients, both channels, readers and idle timers. A
  locked section is one step; aborting a reader or a timer takes effect at once.
- `History.dfy`: the bounded serial history with absolute UTF-16 cursors and
  the windowed `expect`.
- `ConfigCodec.dfy`: the persistent configuration's binary format.
- `TaskExecution.dfy`, `TaskBlob.dfy`, `TaskFormat.dfy`: the task runner, the
  JSON nesting bound, and the line format of stored tasks.
- `Common.dfy`: options, bytes, concatenation, searching and lines.

## What does not hold

Where the code does not meet the obvious claim, the exact condition is proved:

- A lease can still be marked while it is being released, exactly until the
  release is completed (`ArenaThreads.MarkWhileReleasing`, and
  `ArenaThreads.MarkDuringRelease` for a run).
- "A connected port without subscribers has an idle timer" is lost by exactly
  one kind of step (`BrokerRuns.CoverageLostExactly`; `BrokerRuns.PortLeftOpen`
  for a run).
- Segment names sort numerically exactly below 1,000,000 segments
  (`SegmentLog.NamesSortNumerically`, `SegmentLog.MillionOutOfOrder`).
- The search of `expect` finds exactly the literals of at most 4,097 units that
  fit its window (`History.SearchFindsExactly`; `History.PatternIsMissed` for
  the texts it misses).
- Reading a history in windows is reading it at once exactly when no window ends
  inside a surrogate pair (`History.FollowedCursorYieldsLog`;
  `History.PairIsLost` for an input).
- Streaming redaction is batch redaction exactly when every line that outgrows
  the buffer is harmless (`Redaction.StreamsBatchExactly`;
  `Redaction.LongLineLeaks` for a line that is shown).
- `read` of a capture session does not look at the error state. It hands out the
  samples it names exactly as long as the DMA is at most one ring ahead
  (`LogicSession.ReadsExactly`); `LogicSession.FailureIsVisible` says how a caller
  can tell, and `LogicSession.ReadAfterLap` is a run that ends in a wrong sample.

## Model

| member | source | states |
|---|---|---|
| `LogicRuns.ReadsAreLossless` | apps/radxa_linkr_debugger/src/linkr_debugger_capture_engine.c:272-437 | In every run of init, start, capture, stop and read, as long as the session's overrun flag is down: an edge-triggered session sends nothing before the DMA has reported an edge; after it, and from the start without a trigger, all bytes sent are the encoding of the contiguous captured samples from max(0, edge - pre) (0 without a trigger) up to the reader, where the edge is the number of samples before the reporting block plus the offset in it. |
| `LogicRuns.EdgeIsFlaggedOnce` | apps/radxa_linkr_debugger/src/linkr_debugger_capture_engine.c:409-435 | As long as the overrun flag is down, the chunks tile what was sent, and exactly one of them, with first_seq + offset equal to the reported edge, carries the trigger flag once the reader has passed the edge; before that, and without a trigger, none does. |
| `LogicRuns.RunTells` | apps/radxa_linkr_debugger/src/linkr_debugger_capture_engine.c:272-437 | At every moment of every run the session has the owner, id, window, ring and sample size it was started with, its trigger is the first edge reported since, its last captured and last sent numbers and its state say what happened, and it is terminal exactly when it no longer captures. |
| `LogicRuns.CaptureAtEdge` | apps/radxa_linkr_debugger/src/linkr_debugger_capture_engine.c:335-346 | The first edge: trigger = samples so far + offset, the reader goes back to max(0, trigger - pre), all written samples become readable, and the session drains. |
| `LogicRuns.StartExactly` | apps/radxa_linkr_debugger/src/linkr_debugger_capture_engine.c:272-301 | In every run a start is taken exactly for a proper configuration while no session is there; otherwise nothing changes. |
| `LogicRuns.StopExactly` | apps/radxa_linkr_debugger/src/linkr_debugger_capture_engine.c:363-378 | In every run a stop is taken exactly from the owner of the session, by its id; from anyone else it changes nothing. |
| `LogicRuns.StopIsFinal` | apps/radxa_linkr_debugger/src/linkr_debugger_capture_engine.c:310-316 | Until the next init a stopped session takes no sample and cannot be started again; only its reader moves. |
| `LogicRuns.EncodedSample` | apps/radxa_linkr_debugger/src/linkr_debugger_capture_engine.c:412-421 | Sample k of an encoded run is found at byte k * size, lowest byte first, modulo 256 or 65,536. |
| `LogicSession.SentIsEncoded` | apps/radxa_linkr_debugger/src/linkr_debugger_capture_engine.c:386-437 | The invariant's part on bytes: what was sent is the encoding of the stream from the recorded trigger's window to the reader. |
| `LogicSession.FailureIsVisible` | apps/radxa_linkr_debugger/src/linkr_debugger_capture_engine.c:263-378 | In every run the overrun flag, which a caller can read, tells whether a commit has failed: an overflowing commit raises it and nothing else does, `stop` leaves it up, only `init` takes it down, and the error state is entered in no other way. |
| `LogicSession.ReadsExactly` | apps/radxa_linkr_debugger/src/linkr_debugger_capture_engine.c:386-437 | What `read` hands out in every reachable state, after a failed commit too: for each sequence number the last sample the DMA wrote to its slot. These are the samples of those numbers if and only if the DMA is at most one ring ahead of the reader, which holds whenever the overrun flag is down. |
| `LogicSession.LapIsHandedOut` | apps/radxa_linkr_debugger/src/linkr_debugger_capture_engine.c:329-333 | When a well-formed commit laps the reader of a triggered session, the next read, which does not look at the error state, succeeds and hands out the sample one ring later under the reader's number. |
| `LogicSession.ReadAfterLap` | apps/radxa_linkr_debugger/src/linkr_debugger_capture_engine.c:386-437 | A concrete run: a ring of one sample, samples 1 and 2, and a read that hands out 2 as sample 0. |
| `LogicSession.RunKeepsInv` | apps/radxa_linkr_debugger/src/linkr_debugger_capture_engine.c:272-437 | The invariant behind it holds in every state of every run: ring slots hold the samples still owed, sequence numbers are ordered, the overrun flag, the sent bytes and the flagged chunks match what happened. |
| `LogicSession.OverflowExactly` | apps/radxa_linkr_debugger/src/linkr_debugger_capture_engine.c:318-360 | A well-formed commit in a running session overflows if and only if one of the samples just written took the slot of a sample still owed to the reader (unread, or in the pre-trigger window of this trigger); otherwise a triggered session keeps reader <= eligible = writer <= reader + ring size. |
| `LogicSession.TriggerIsFlaggedOnce` | apps/radxa_linkr_debugger/src/linkr_debugger_capture_engine.c:409-435 | The invariant's part on chunks: as long as the overrun flag is down, exactly one chunk carries the flag once the reader has passed the recorded trigger, and none before. |
| `LogicSession.DrainReachesWriter` | apps/radxa_linkr_debugger/src/linkr_debugger_capture_engine.c:386-437 | As long as the overrun flag is down, any number of reads into a large enough buffer hands out min(unread, reads * block) samples, so that reads drain to the writer; a stopped session stays stopped and its stream does not change. |
| `LogicSession.ReadIsFaithful` | apps/radxa_linkr_debugger/src/linkr_debugger_capture_engine.c:402-423 | A block read from the modular ring is the encoding of the captured samples with those sequence numbers. |
| `LogicSession.FillHolds` | apps/radxa_linkr_debugger/src/linkr_debugger_capture_engine.c:324-330 | After a block is written behind the writer, each of the last ring of written samples is found in its slot and every slot less than a ring behind keeps its sample. |
| `LogicSession.Engine.Init` | apps/radxa_linkr_debugger/src/linkr_debugger_capture_engine.c:251-256 | The session structure is back to idle; the ring is untouched. |
| `LogicSession.Engine.Start` | apps/radxa_linkr_debugger/src/linkr_debugger_capture_engine.c:272-301 | Return code and whole new session: invalid configurations and a busy engine change nothing; otherwise armed, or live and triggered when no trigger is configured. |
| `LogicSession.Engine.Commit` | apps/radxa_linkr_debugger/src/linkr_debugger_capture_engine.c:303-361 | Return code and whole new session of a commit, for every state, count and trigger offset; what the new trigger and reader mean is `LogicRuns.CaptureAtEdge`. |
| `LogicSession.Engine.FillRing` | apps/radxa_linkr_debugger/src/linkr_debugger_capture_engine.c:324-330 | The DMA's effect: the samples stand behind the writer, wrapped around the ring, and no other slot changes. |
| `LogicSession.Engine.Capture` | apps/radxa_linkr_debugger/src/linkr_debugger_capture_engine.c:303-361 | DMA fill and commit as one step: the whole world afterwards, and the invariant is kept. |
| `LogicSession.Engine.Stop` | apps/radxa_linkr_debugger/src/linkr_debugger_capture_engine.c:363-378 | Stopping an idle session does nothing, a foreign owner or id is refused, and otherwise the session is terminal with the given reason. |
| `LogicSession.Engine.Read` | apps/radxa_linkr_debugger/src/linkr_debugger_capture_engine.c:386-437 | Return code, chunk, buffer contents (the encoded samples, the rest of the buffer untouched) and whole new session; on an error nothing changes. |
| `LogicSession.Engine.CopySamples` | apps/radxa_linkr_debugger/src/linkr_debugger_capture_engine.c:409-423 | The copy loop fills the buffer with the encoded ring slots and finds the trigger's index in the block, if it is there. |
| `ArenaThreads.LeasesAreSeparated` | apps/radxa_linkr_debugger/src/linkr_debugger_capture_arena.c:108-233 | Mutual exclusion over every interleaving: a lease that is current at one moment is current at a later one if and only if no release of it was completed in between, and another lease is handed out only after that. |
| `ArenaThreads.LeaseIsExclusive` | apps/radxa_linkr_debugger/src/linkr_debugger_capture_arena.c:341-496 | Until its own release is completed a current lease stays current and no other lease is handed out, whatever the threads do. |
| `ArenaThreads.OneThreadAtWork` | apps/radxa_linkr_debugger/src/linkr_debugger_capture_arena.c:204-233 | Over every interleaving at most one thread is inside a call that changes the lease, and it holds exactly the current lease. |
| `ArenaThreads.QuiesceIsResumedOnce` | apps/radxa_linkr_debugger/src/linkr_debugger_capture_arena.c:378-447 | Over every interleaving the quiesce calls lead the resume calls by at most one, and are equal whenever the arena is idle. |
| `ArenaThreads.NobodyAcquiresDuringResume` | apps/radxa_linkr_debugger/src/linkr_debugger_capture_arena.c:174-233 | While some thread is about to run or is running the resume hook, no acquisition of any kind changes the arena. |
| `ArenaThreads.ReservationIsNeverStale` | apps/radxa_linkr_debugger/src/linkr_debugger_capture_arena.c:423-446 | Without another init a reservation is still there when its quiesce hook returns: the call succeeds if and only if the hook did, and -ESTALE or -EIO never occur. |
| `ArenaThreads.ReleasedIsDead` | apps/radxa_linkr_debugger/src/linkr_debugger_capture_arena.c:108-116 | A lease that is no longer current never becomes current again, whatever the threads do. |
| `ArenaThreads.ReleasedLeaseHasNoEffect` | apps/radxa_linkr_debugger/src/linkr_debugger_capture_arena.c:481-496 | After a release has finished, no later mark or release with that lease changes anything. |
| `ArenaThreads.MarkWhileReleasing` | apps/radxa_linkr_debugger/src/linkr_debugger_capture_arena.c:118-137 | Once the release of a lease has begun, and after any further steps of any threads, a mark with it changes the arena if and only if that release has not been completed and the arena is in the state the mark starts from. |
| `ArenaThreads.MarkDuringRelease` | apps/radxa_linkr_debugger/src/linkr_debugger_capture_arena.c:118-137 | A concrete run in which a lease is marked after its release has begun. |
| `ArenaThreads.IdleArenaIsTaken` | apps/radxa_linkr_debugger/src/linkr_debugger_capture_arena.c:341-416 | In every reachable state with an idle arena a nonzero session id takes it under a new generation: at once when the canaries are intact, or by a reservation whatever the canaries are. |
| `ArenaThreads.HookDecides` | apps/radxa_linkr_debugger/src/linkr_debugger_capture_arena.c:418-441 | A reservation becomes a lease exactly when its hook succeeds or is not there, and then a resume is owed exactly if the hook was called; otherwise its release has begun. |
| `ArenaThreads.ReleaseBegins` | apps/radxa_linkr_debugger/src/linkr_debugger_capture_arena.c:204-217 | A holder's release begins when none is under way, with the resume hook due exactly if the acquisition armed it. |
| `ArenaThreads.ReleaseCompletes` | apps/radxa_linkr_debugger/src/linkr_debugger_capture_arena.c:219-233 | A begun release runs through: the hook is called exactly if due and there, and the arena is idle, intact and one generation on. |
| `ArenaThreads.RunKeepsInv` | apps/radxa_linkr_debugger/src/linkr_debugger_capture_arena.c:341-496 | The invariant of leases, threads and hook calls holds after every interleaving of acquire, quiesced acquire, mark, release and their hooks. |
| `CaptureArena.ArenaState.Mark` | apps/radxa_linkr_debugger/src/linkr_debugger_capture_arena.c:118-137 | Code and whole new state of a mark. |
| `CaptureArena.ArenaState.TryAcquireWide11` | apps/radxa_linkr_debugger/src/linkr_debugger_capture_arena.c:341-376 | A lease is handed out exactly when the arena changes, and it is the current one. |
| `CaptureArena.ArenaState.Reserve` | apps/radxa_linkr_debugger/src/linkr_debugger_capture_arena.c:396-416 | First section of the quiesced acquisition: a new generation in the quiescing state, or busy. |
| `CaptureArena.ArenaState.Confirm` | apps/radxa_linkr_debugger/src/linkr_debugger_capture_arena.c:423-441 | Second section: acquired with the hook noted, or a release begun and the code that says why. |
| `CaptureArena.ArenaState.BeginRelease` | apps/radxa_linkr_debugger/src/linkr_debugger_capture_arena.c:204-217 | A release begins exactly for the current lease with no release in progress. |
| `CaptureArena.ArenaState.FinishRelease` | apps/radxa_linkr_debugger/src/linkr_debugger_capture_arena.c:219-233 | The arena is cleared, with a new generation, exactly when the lease is still current and being released. |
| `CaptureArena.ArenaState.Release` | apps/radxa_linkr_debugger/src/linkr_debugger_capture_arena.c:481-496 | Undisturbed, a release clears the arena exactly for the current lease, and calls resume exactly when the acquisition armed it. |
| `CaptureArena.ArenaState.TryAcquireWide11Quiesced` | apps/radxa_linkr_debugger/src/linkr_debugger_capture_arena.c:378-447 | Undisturbed, the call holds the arena afterwards if and only if the arena was free and the hook, if any, succeeded; after a failed hook the arena is cleared again and resumed once. |
| `SegmentLog.RecordsAreTiled` | host-tools/src/serial_log.rs:806-880 | For every sequence of accepted records the index entries tile the raw segments: each entry continues where the previous one ends, or at the start of the next segment exactly when the limit asks for it, locates exactly its own bytes, sequence numbers count from 1, and a segment exceeds the limit only when it holds a single non-empty record. |
| `SegmentLog.WriteKeepsTiles` | host-tools/src/serial_log.rs:854-872 | Writing one more record, with or without rotation, keeps the tiling. |
| `SegmentLog.NamesSortNumerically` | host-tools/src/serial_log.rs:907-911 | The names of segments 1..n sort in numeric order if and only if n < 1,000,000. |
| `SegmentLog.MillionOutOfOrder` | host-tools/src/serial_log.rs:908-908 | The name of segment 1,000,000 sorts before that of segment 999,999. |
| `SegmentLog.ListingIsNumeric` | host-tools/src/serial_log.rs:1009-1021 | Below 1,000,000 segments a listing sorted by name is the segments in numeric order. |
| `SegmentLog.DownloadIsRecorded` | host-tools/src/serial_log.rs:1000-1021 | Below 1,000,000 segments the sorted download is the concatenation of all accepted records. |
| `SerialLog.SweepAccounts` | host-tools/src/serial_log.rs:1067-1092 | Retention deletes only completed unpinned sessions, frees exactly what they weigh, and ends within the quota or with no such session left. |
| `SerialLog.QuotaDeletesPrefix` | host-tools/src/serial_log.rs:1070-1090 | The sessions deleted for the quota are an oldest-first prefix of the eligible ones. |
| `SerialLog.QuotaDeletesOnlyNeeded` | host-tools/src/serial_log.rs:1083-1090 | Before each deletion for the quota the archive is still over the quota. |
| `SerialLog.OldestGoFirst` | host-tools/src/serial_log.rs:1070-1090 | A completed unpinned session is deleted whenever a younger one is deleted for the quota. |
| `SerialLog.DeletedExactly` | host-tools/src/serial_log.rs:1078-1090 | A session of the listing is deleted if and only if it is completed, unpinned, and either past the retention age or the archive, without the sessions deleted before it, is still over the quota. |
| `SerialLog.ExpiredAreDeleted` | host-tools/src/serial_log.rs:1078-1088 | No completed unpinned session outlives its retention age. |
| `SerialLog.ExpiredGoAtStart` | host-tools/src/serial_log.rs:578-590 | After a session start, successful or not, and after every record that needs room, no completed unpinned session past its retention age is left. |
| `SerialLog.RefusedExactly` | host-tools/src/serial_log.rs:806-873 | A record is ignored exactly without a session, refused exactly when it does not fit after all that retention could delete, failed exactly when it fits and the file system does not take it, and accepted otherwise. |
| `SerialLog.RoomyRecordsDeleteNothing` | host-tools/src/serial_log.rs:840-846 | While everything fits, a record deletes nothing. |
| `SerialLog.StartTakesEffect` | host-tools/src/serial_log.rs:578-628 | A new session is recording, unpinned and empty with one fresh segment exactly when the file system takes it; sessions being recorded go on, and of the others retention alone takes some. |
| `SerialLog.FinishTakesEffect` | host-tools/src/serial_log.rs:681-702 | A finished session is no longer written, stored manifest or not; a stored one has the writer's counts, the lost bytes, and the complete status exactly when neither side noted a failure; nothing else changes. |
| `SerialLog.PinTakesEffect` | host-tools/src/serial_log.rs:426-450 | A pin change takes effect exactly for a session that is not being recorded, and changes nothing else. |
| `SerialLog.DeleteTakesEffect` | host-tools/src/serial_log.rs:452-472 | A deletion removes a session exactly when it is not being recorded and not pinned, and nothing else; each code names its condition. |
| `SerialLog.PinProtects` | host-tools/src/serial_log.rs:426-472 | Neither retention nor a deletion removes a pinned session; unpinned, it can be deleted again. |
| `SerialLog.RefusedOnlyWithoutEligible` | host-tools/src/serial_log.rs:841-853 | Data is refused for the quota only when no completed unpinned session is left. |
| `SerialLog.AcceptedWithinQuota` | host-tools/src/serial_log.rs:841-873 | After an accepted record the archive is within the quota. |
| `SerialLog.StartKeepsCounter` | host-tools/src/serial_log.rs:578-628 | A session start, with its retention, keeps the running counter equal to the sum of all unpinned directory sizes. |
| `SerialLog.DataKeepsCounter` | host-tools/src/serial_log.rs:841-879 | A data record, accepted or refused, keeps the counter exact. |
| `SerialLog.FinishKeepsCounter` | host-tools/src/serial_log.rs:681-702 | A finish, which rewrites the manifest, keeps the counter exact. |
| `SerialLog.PinKeepsCounter` | host-tools/src/serial_log.rs:426-450 | Pinning and unpinning keep the counter exact, and a recording session stays unpinned. |
| `SerialLog.DeleteKeepsCounter` | host-tools/src/serial_log.rs:452-472 | Deleting keeps the counter exact. |
| `SerialLog.Archive.UnpinnedArchiveSize` | host-tools/src/serial_log.rs:1055-1065 | The loop over any listing computes the sum of the sizes of all unpinned sessions. |
| `SerialLog.Archive.EnforceRetention` | host-tools/src/serial_log.rs:1067-1092 | The loop over the listing deletes what the retention function says, which `SerialLog.DeletedExactly` settles for each session, and returns the bytes freed. |
| `SerialLog.Archive.Start` | host-tools/src/serial_log.rs:578-628 | Whole new archive of a session start, with its retention, on success and on an I/O error. |
| `SerialLog.Archive.WriteData` | host-tools/src/serial_log.rs:806-880 | Result and whole new archive for a record: ignored, refused for the quota, failed, or written. |
| `SerialLog.Archive.MakeRoom` | host-tools/src/serial_log.rs:840-853 | Retention runs only over the quota, and the answer says whether the record now fits. |
| `SerialLog.Archive.WriteRecord` | host-tools/src/serial_log.rs:854-872 | Rotation, raw bytes, index line and session counters of one record. |
| `SerialLog.Archive.Finish` | host-tools/src/serial_log.rs:882-905 | The manifest of a finished session: complete exactly when neither the writer nor the queue lost anything. |
| `SerialLog.Archive.SetPinned` | host-tools/src/serial_log.rs:426-450 | Code and whole new archive: not found, still recording, or pinned with the counter adjusted. |
| `SerialLog.Archive.Delete` | host-tools/src/serial_log.rs:452-472 | Code and whole new archive: not found, still recording, pinned, or deleted. |
| `SerialLogQueue.FinishedSessionsAddUp` | host-tools/src/serial_log.rs:322-365 | For every finished session and every interleaving of readers, the bounded queue, the writer, pins and deletions: the manifest counts the records, bytes and segments of the raw files, written bytes plus dropped bytes are the bytes offered, `complete` holds if and only if every offered record was written, and then the raw files and (below 1,000,000 segments) the download are exactly the offered stream. |
| `SerialLogQueue.CompleteExactly` | host-tools/src/serial_log.rs:322-752 | In every run a finished session is complete if and only if no step lost a record of it: the queue had room for each one, and the writer refused or failed none. |
| `SerialLogQueue.DroppedIsExact` | host-tools/src/serial_log.rs:511-525 | In every run the total of dropped bytes has grown by the bytes of every record lost, of every session, each counted once. |
| `SerialLogQueue.LossRecordsEnd` | host-tools/src/serial_log.rs:291-320 | A session's loss record begins clean with a queued start and ends with a refused or failed start or the finish; the records of other sessions stay. |
| `SerialLogQueue.CounterIsExact` | host-tools/src/serial_log.rs:556-752 | The running counter equals the recomputed sum in every state of every run. |
| `SerialLogQueue.RunKeepsInv` | host-tools/src/serial_log.rs:511-752 | What is written, queued and dropped of the followed session always adds up to what was offered, and its queued commands are exactly the pending records in order. |
| `SerialLogQueue.LogService.TryEnqueue` | host-tools/src/serial_log.rs:527-543 | A command is queued exactly when there is room. |
| `SerialLogQueue.LogService.NoteDrop` | host-tools/src/serial_log.rs:511-525 | The dropped bytes are counted in total and, with a session, for the session, which is marked failed. |
| `SerialLogQueue.LogService.StartSession` | host-tools/src/serial_log.rs:291-320 | A session starts with a clean loss record and a queued command, or not at all. |
| `SerialLogQueue.LogService.RecordRx` | host-tools/src/serial_log.rs:322-340 | Received bytes are queued, or counted as dropped when the queue is full. |
| `SerialLogQueue.LogService.FinishSession` | host-tools/src/serial_log.rs:342-365 | The finish command follows everything queued before it. |
| `SerialLogQueue.LogService.ProcessNext` | host-tools/src/serial_log.rs:573-703 | One turn of the writer loop: whole new service for a start, data or finish command. |
| `Utf8.DecodeUtf8Stream` | host-tools/src/serial_broker.rs:1075-1103 | The loop decodes everything but an unfinished final character and says how many bytes it consumed. |
| `Utf8.BroadcastsAreLossy` | host-tools/src/serial_broker.rs:743-778 | For every split of a byte stream into batches, the broadcast texts, with the final flush, are together the one-shot lossy decoding of the whole stream (section 4 of RFC 3629; one U+FFFD for each maximal subpart, section 3.9 of the Unicode Standard), and each of them is well formed and not empty. |
| `Utf8.ReadSerial` | host-tools/src/serial_broker.rs:743-778 | The loop broadcasts exactly those texts and keeps at most three bytes between two batches. |
| `Utf8.Pending.DrainLossyUtf8` | host-tools/src/gateway.rs:422-453 | The drained text is the decoding of the pending bytes, and what stays is the unfinished character, or nothing at the end. |
| `Utf8.LossyTextStreamBody` | host-tools/src/gateway.rs:382-415 | For every list of files and every split into reads, the outputs are the one-shot lossy decoding of all bytes; a character may span two files. |
| `Utf8.AtMostThreePending` | host-tools/src/serial_broker.rs:756-760 | At most three bytes stay pending between two chunks. |
| `Utf8.DecodingResumes` | host-tools/src/serial_broker.rs:756-760 | Decoding a prefix, keeping its unfinished character and going on with the rest is decoding the whole. |
| `Utf8.LossyIsWellFormed` | host-tools/src/gateway.rs:422-453 | Lossy decoding leaves well-formed text alone, and its result is always well formed. |
| `Utf8.LossyReplaces` | host-tools/src/serial_broker.rs:1075-1103 | Well-formed text is kept and each ill-formed part behind it becomes one U+FFFD, whatever follows; only an unfinished character at the end is held back by a decoder that waits for more. |
| `Utf8.ReplacementIsUFFFD` | host-tools/src/serial_broker.rs:1092-1095 | The replacement is the three-byte form of U+FFFD. |
| `Utf8.HeadIsMaximalSubpart` | host-tools/src/serial_broker.rs:1075-1103 | The ill-formed part replaced by one U+FFFD is the longest one that could have begun a well-formed character. |
| `Utf8.CharIsWellFormed` | host-tools/src/serial_broker.rs:1075-1103 | A character is accepted exactly when its bytes are one of the well-formed byte sequences of section 4 of RFC 3629. |
| `Redaction.StreamingRefinesBatch` | host-tools/src/serial_broker.rs:113-140 | For every chunking of a text without a newline-free run above 65,536 bytes, `push` for each chunk followed by `finish` shows exactly the batch redaction of the whole text. |
| `Redaction.KeptIsBounded` | host-tools/src/serial_broker.rs:121-128 | For every text, what `push` keeps is text without a newline: the whole unfinished line up to 65,536 bytes, and of a longer one its last 512 to 515 bytes. |
| `Redaction.RedactedTextIsClean` | host-tools/src/serial_broker.rs:136-164 | Redacted text contains neither the variable nor the marker, and a text passes unchanged if and only if it contained neither. |
| `Redaction.OutputBeforeMarkerIsKept` | host-tools/src/serial_broker.rs:142-164 | Output in front of an exit marker is kept, with the line's ending; a line that begins with the marker, or names the variable, goes completely. |
| `Redaction.NamesAre` | host-tools/src/serial_broker.rs:143-148 | The variable and the marker, spelled out. |
| `Redaction.StreamsBatchExactly` | host-tools/src/serial_broker.rs:113-164 | For every chunking of every text, streaming shows the batch redaction if and only if every line that some `push` had to cut contains no variable and no marker that starts before the cut; a marker right at the last cut is harmless only in a line without an ending, because the ending is lost. |
| `Redaction.CleanTextPasses` | host-tools/src/serial_broker.rs:113-164 | A text without variable and marker passes unchanged, however long its lines are and however it is cut into chunks. |
| `Redaction.LongLineLeaks` | host-tools/src/serial_broker.rs:121-128 | A leak in chunks of at most 16,384 bytes: a bookkeeping line that outgrows the buffer before its newline comes is shown, although its batch redaction is empty. |
| `Redaction.ObserverRedaction.Push` | host-tools/src/serial_broker.rs:113-129 | The draining loops show and keep what the streaming functions say. |
| `BrokerRuns.RunKeepsInv` | host-tools/src/serial_broker.rs:203-255 | In every reachable state path, rate, writer and reader are present together, an owner is a subscriber of a connected port, a redaction belongs to the current owner and is bounded, an idle timer waits only while nobody subscribes, every client's frames are numbered in increasing order, and the subscription table, with the tasks under way, lists exactly the channels each client is in. |
| `BrokerRuns.ClaimIsExclusive` | host-tools/src/serial_broker.rs:473-579 | From any moment at which a client owns a line until its own release, close or disconnect, the end of the reader or shutdown, it stays the owner whatever all others do, and exactly its accepted writes reach the device, each in one piece and in order. |
| `BrokerRuns.ClaimEndsExactly` | host-tools/src/serial_broker.rs:581-709 | A step on the channel ends a claim if and only if it is the owner's own release, close or disconnect, the end of the reader or shutdown. |
| `BrokerRuns.OnlyOwnerWrites` | host-tools/src/serial_broker.rs:487-499 | While a line is owned no other client's write is accepted, and the owner's plain write is accepted exactly when the device takes it. |
| `BrokerRuns.ObserversReceiveStream` | host-tools/src/serial_broker.rs:802-859 | Over a whole redacted operation an observer that stays subscribed receives exactly the streamed redaction of what was read, and the owner all of it, whatever other clients do meanwhile. |
| `BrokerRuns.ObserversSeeRedactedText` | host-tools/src/serial_broker.rs:500-531 | From the accepted write with a token to the end of the claim, an observer receives the streamed redaction of the text read: the batch redaction, free of the bookkeeping, if and only if every line cut on the way is harmless; text without bookkeeping arrives unchanged. |
| `BrokerRuns.SubscribersReceiveAll` | host-tools/src/serial_broker.rs:828-833 | While no redaction is active, a client that stays subscribed receives all the text read on the channel, in order, whoever owns the line. |
| `BrokerRuns.BytesReachSubscribers` | host-tools/src/serial_broker.rs:737-834 | From the port to the client: the bytes read, in any batches, reach a client that stays subscribed, while no redaction is active, as the one-shot lossy decoding of all of them; the reader can always broadcast what it decodes. |
| `BrokerRuns.BytesReachOwner` | host-tools/src/serial_broker.rs:802-834 | The owner of a redacted operation receives the lossy decoding of all bytes read. |
| `BrokerRuns.GonePeersHoldNothing` | host-tools/src/serial_broker.rs:683-709 | A client whose disconnect has finished subscribes to nothing and owns neither a line nor a redaction. |
| `BrokerRuns.TableIsExact` | host-tools/src/serial_broker.rs:452-461 | Between two requests the subscription table lists for a client exactly the channels it is in, so a disconnect visits those and no others. |
| `BrokerRuns.LineIsClaimed` | host-tools/src/serial_broker.rs:581-616 | A concrete run in which a client opens a channel and then owns its line. |
| `BrokerRuns.ClosedPortsFinishedTheirLogs` | host-tools/src/serial_broker.rs:244-254 | Whenever a port is closed, the log sessions finished on its channel are exactly those begun, once and in order. |
| `BrokerRuns.CoverageLostExactly` | host-tools/src/serial_broker.rs:365-384 | That a connected port without subscribers has an idle timer pending (or about to be started) is not an invariant: a step breaks it if and only if it is an `open` at another rate of such a port. |
| `BrokerRuns.PortLeftOpen` | host-tools/src/serial_broker.rs:370-384 | A concrete run that ends with a connected port, no subscriber and no timer. |
| `Broker.PostKeepsOrder` | host-tools/src/serial_broker.rs:802-859 | The owner's raw frame and the observers' redacted frame may share a number: no client gets both, so numbers still increase for every client. |
| `Broker.OpenAchieves` | host-tools/src/serial_broker.rs:365-437 | In every valid channel a client is in after an open exactly when the port is connected at its rate, or is not connected and is found and opened; a refused open only stops the idle timer, and each code names its condition. |
| `Broker.ClaimAchieves` | host-tools/src/serial_broker.rs:595-613 | In every valid channel a claim succeeds, and makes the client the owner with its tag, exactly when it is a subscriber of a connected port that no other client owns; otherwise nothing changes and the code says which condition failed. |
| `Broker.NextClaimSucceeds` | host-tools/src/serial_broker.rs:581-634 | While a client owns the line another subscriber's claim is refused as busy; right after the owner's release, close or disconnect it succeeds. |
| `Broker.WriteAchieves` | host-tools/src/serial_broker.rs:473-579 | In every valid channel a write is accepted exactly from a subscriber of a connected port, if nobody else owns the line, a redaction is asked for by the owner alone while none is active, and the device takes the bytes; the code names the first condition that fails, and the bytes reach the device exactly when it is accepted. |
| `Broker.LeaveAchieves` | host-tools/src/serial_broker.rs:642-704 | Leaving takes the client and its claim out of the channel and nobody else; with a close the port goes with the last subscriber and not before. |
| `Broker.TimeoutCloses` | host-tools/src/serial_broker.rs:722-733 | An idle timer that runs out always closes the port, with every log session finished: it never meets a subscriber. |
| `Broker.ChannelState.Open` | host-tools/src/serial_broker.rs:365-437 | Code and whole new channel of an open: the timer is cancelled first, then rate conflict, missing port, failed open, or subscription. |
| `Broker.ChannelState.Write` | host-tools/src/serial_broker.rs:473-579 | Code and whole new channel of a write; the redaction starts before the device is written and stays when that fails. |
| `Broker.ChannelState.Claim` | host-tools/src/serial_broker.rs:581-616 | Code and whole new channel of a claim, as `Broker.ClaimAchieves` explains them. |
| `Broker.ChannelState.Release` | host-tools/src/serial_broker.rs:618-634 | Only the owner's release has an effect: the redaction is flushed to the observers, then the claim ends. |
| `Broker.ChannelState.Close` | host-tools/src/serial_broker.rs:642-681 | A close ends the client's claim and subscription, and the port with the last subscriber. |
| `Broker.ChannelState.Leave` | host-tools/src/serial_broker.rs:689-704 | The locked part of a disconnect: as a close, but the port stays open. |
| `Broker.ChannelState.ScheduleIdleClose` | host-tools/src/serial_broker.rs:711-718 | The timer is pending afterwards exactly when the port is connected and nobody subscribes. |
| `Broker.ChannelState.IdleTimeout` | host-tools/src/serial_broker.rs:722-733 | The timer closes the port of a channel without subscribers. |
| `Broker.ChannelState.BroadcastData` | host-tools/src/serial_broker.rs:802-834 | Owner and observers each get their frame with the next number; an empty redacted text is not sent. |
| `Broker.ChannelState.FinishObserverRedaction` | host-tools/src/serial_broker.rs:836-859 | The rest of the redacted text goes to the observers. |
| `Broker.ChannelState.EndReader` | host-tools/src/serial_broker.rs:779-799 | The end of the reader flushes the redaction and closes the port; subscribers stay. |
| `Broker.ChannelState.ClosePort` | host-tools/src/serial_broker.rs:244-254 | The port, its claim, its redaction and its log session are gone. |
| `Broker.ChannelState.Send` | host-tools/src/serial_broker.rs:855-858 | Each receiver, and no one else, gets one more frame. |
| `History.History.Append` | host-tools/src/mcp_serial.rs:76-88 | The deque and its evictions hold the end of one unbounded log, of which `History.AppendKeepsWhatFits` says how much. |
| `History.AppendKeepsWhatFits` | host-tools/src/mcp_serial.rs:76-85 | An append adds its text at the end of the log and evicts only what does not fit: when anything goes, exactly 1,048,576 units stay. |
| `History.CursorExpiresExactly` | host-tools/src/mcp_serial.rs:76-113 | Over every run without a reconnection a cursor stays retained exactly as long as at most 1,048,576 units lie behind it. |
| `History.ReconnectKeepsEnd` | host-tools/src/mcp_serial.rs:67-74 | After a reconnection the end of the log is the only retained cursor. |
| `History.History.Collect` | host-tools/src/mcp_serial.rs:90-142 | A window is the lossy text of the log's units from the cursor on, or the error that says why the cursor is not retained. |
| `History.History.AtCursor` | host-tools/src/mcp_serial.rs:67-74 | A new history at a checkpoint continues the log of the one before. |
| `History.History.Expect` | host-tools/src/mcp_serial.rs:601-675 | However the history is cut into windows and whatever arrives between looks, the history afterwards is the old one with the arrivals of the polls consumed; a match names the leftmost occurrence at or after the start cursor, with its cursors and text, for every pattern the search cannot pass over; a timeout means there was none, and comes only when the last poll consumed had its deadline or there are no more; while all text fits one window the first deadline ends the search; an expired cursor means that the start is no longer retained. |
| `History.PresentIsNotTimedOut` | host-tools/src/mcp_serial.rs:648-675 | What arrives in time is found: when `expect` has answered a timeout, a pattern that fits the search was not there at any look up to the first deadline. |
| `History.StepSkipsNothing` | host-tools/src/mcp_serial.rs:642-646 | The step behind it: a truncated window examines every start it leaves behind if and only if the pattern fits the window and has at most 4,097 units. |
| `History.SearchFindsExactly` | host-tools/src/mcp_serial.rs:626-660 | With the window sizes `expect` is called with, the search of a fixed history is right (leftmost occurrence, or none) for every history and every retained start if and only if the pattern has at most 4,097 units and fits the window, or is longer than any history. |
| `History.PatternIsMissed` | host-tools/src/mcp_serial.rs:642-659 | For every other pattern there is a text that holds it and a search that ends in a timeout. |
| `History.LookDecides` | host-tools/src/mcp_serial.rs:626-660 | One look settles the answer or, in a truncated window, strictly decreases the distance from the search cursor to the end of the log. |
| `History.OccurrencesSurviveLossy` | host-tools/src/mcp_serial.rs:133-140 | Searching the lossy text finds exactly the occurrences in the raw units, wherever the window cuts a surrogate pair, for patterns without U+FFFD. |
| `History.LossyPointwise` | host-tools/src/mcp_serial.rs:140-140 | Lossy conversion keeps the number of units and replaces exactly the unpaired surrogates. |
| `History.FollowedCursorYieldsLog` | host-tools/src/mcp_serial.rs:122-141 | Following `next_cursor` across appends, evictions and reconnections gives the log's text from the start cursor on, unit for unit, without gap or repeat. The texts together are the lossy text of that stretch if and only if no read ended inside a surrogate pair; a pair cut by a read arrives as U+FFFD twice. A read that fails names units that are gone. |
| `History.PairIsLost` | host-tools/src/mcp_serial.rs:133-140 | One character, read one unit at a time, arrives as U+FFFD twice. |
| `History.CursorNamesOneUnit` | host-tools/src/mcp_serial.rs:159-176 | A cursor retained at two times of any run, reconnections included, names the same unit. |
| `ConfigCodec.DecodeExactly` | apps/radxa_linkr_debugger/src/linkr_debugger_config_codec.c:191-286 | A buffer of any length decodes to a selection if and only if the selection is valid and the buffer is its encoding: both round trips, and one encoding for each selection. |
| `ConfigCodec.SelectionFits` | apps/radxa_linkr_debugger/src/linkr_debugger_config_codec.c:52-53 | A strictly increasing catalog selection never exceeds the entry array or the maximal encoded size. |
| `ConfigCodec.ValidSelectionsAre` | apps/radxa_linkr_debugger/src/linkr_debugger_config_codec.c:159-189 | A selection is valid if and only if it is not empty, its entries are valid, and their items stand in the order of the catalog, none of them twice. |
| `ConfigCodec.ValidEntriesAre` | apps/radxa_linkr_debugger/src/linkr_debugger_config_codec.c:111-132 | An entry is valid if and only if its item is in the catalog and its value is one of its domain. |
| `ConfigCodec.EncodedHeader` | apps/radxa_linkr_debugger/src/linkr_debugger_config_codec.c:214-220 | The twelve header bytes of every encoding. |
| `ConfigCodec.EncodedEntryIs` | apps/radxa_linkr_debugger/src/linkr_debugger_config_codec.c:221-228 | The four bytes of every entry. |
| `ConfigCodec.EncodingIsUnique` | apps/radxa_linkr_debugger/src/linkr_debugger_config_codec.c:214-228 | The byte-by-byte description of an encoding has one solution. |
| `ConfigCodec.HeaderIsDecoded` | apps/radxa_linkr_debugger/src/linkr_debugger_config_codec.c:247-269 | The header check accepts exactly the header of a count from 1 to the catalog size with the matching total size. |
| `ConfigCodec.HeaderErrorsAre` | apps/radxa_linkr_debugger/src/linkr_debugger_config_codec.c:247-269 | Over all buffers: not applicable exactly for a proper magic with another version, empty exactly for the perfect header of no entries, and malformed for all other refused ones. |
| `ConfigCodec.FindItem` | apps/radxa_linkr_debugger/src/linkr_debugger_config_codec.c:62-73 | The loop finds exactly the catalog items. |
| `ConfigCodec.ValidateEntry` | apps/radxa_linkr_debugger/src/linkr_debugger_config_codec.c:111-132 | An entry is accepted exactly when it is a catalog item with a value of its domain. |
| `ConfigCodec.SwitchValueValid` | apps/radxa_linkr_debugger/src/linkr_debugger_config_codec.c:91-109 | Exactly the two values of each of the four switches. |
| `ConfigCodec.Snapshot.Validate` | apps/radxa_linkr_debugger/src/linkr_debugger_config_codec.c:167-189 | Accepted exactly for a valid selection; the empty one has its own code. |
| `ConfigCodec.Snapshot.Encode` | apps/radxa_linkr_debugger/src/linkr_debugger_config_codec.c:191-231 | Succeeds exactly for a valid selection and a large enough buffer, writes its encoding in place and nothing behind it; otherwise the buffer is untouched. |
| `ConfigCodec.Snapshot.Decode` | apps/radxa_linkr_debugger/src/linkr_debugger_config_codec.c:233-286 | The structure holds the decoded selection, or is empty with the code that says why. |
| `ConfigCodec.PutHeader` | apps/radxa_linkr_debugger/src/linkr_debugger_config_codec.c:214-220 | The header bytes and the cleared entries, in place. |
| `ConfigCodec.PutEntries` | apps/radxa_linkr_debugger/src/linkr_debugger_config_codec.c:221-228 | The loop turns the cleared buffer into the encoding of the entries. |
| `ConfigCodec.ReadHeader` | apps/radxa_linkr_debugger/src/linkr_debugger_config_codec.c:247-269 | The checks in the source's order give the decoded count or the code. |
| `ConfigCodec.ReadEntries` | apps/radxa_linkr_debugger/src/linkr_debugger_config_codec.c:270-283 | The loop accepts exactly the decodable entries and stores them. |
| `TaskExecution.OutcomeExplainsScript` | cmd-ng/src/task_execution.rs:114-174 | What an outcome says is true of the script of answers and cancellations: every record before the last attempted one was sent, answered and not cancelled, the last one accounts for the error, Ok if and only if all went through, and a cleanup answer is there exactly when a cleanup was given and a request failed or a cancellation came after a success; it is the answer to the request after the attempted ones. |
| `TaskExecution.TaskExecutor.Execute` | cmd-ng/src/task_execution.rs:114-140 | For every script the outcome, and the requests sent: the attempted records in order, then the cleanup exactly when the outcome has its answer. |
| `TaskExecution.TaskExecutor.WhenCancelled` | cmd-ng/src/task_execution.rs:143-156 | A cleanup is sent exactly after at least one completed request. |
| `TaskExecution.TaskExecutor.AttemptCleanup` | cmd-ng/src/task_execution.rs:158-174 | The cleanup record, if given, is sent once and its answer reported. |
| `TaskBlob.JsonDepthExceeds` | cmd-ng/src/task_blob.rs:175-195 | The explicit-stack search ends and is true if and only if the recursively defined container depth exceeds the maximum. |
| `TaskBlob.VisitContainer` | cmd-ng/src/task_blob.rs:179-190 | Replacing a container by its children keeps the answer and shrinks the work left. |
| `TaskBlob.ParseRecord` | cmd-ng/src/task_blob.rs:132-159 | A request is accepted exactly within the limits on method, path, body, wait and nesting. |
| `TaskBlob.PrefixesAre` | cmd-ng/src/task_blob.rs:21-21 | The method and the three path prefixes, spelled out. |
| `TaskBlob.RequestPathsAre` | cmd-ng/src/task_blob.rs:161-173 | A path is accepted if and only if it is one of the three prefixes followed by one segment of plain characters other than `.` and `..`. |
| `TaskFormat.ParseExactly` | cmd-ng/src/task_blob.rs:52-117 | A blob whose significant lines are the version line and a printed list of tasks is accepted if and only if it is within the limits (4,096 bytes, lines of 256, 1 to 4 tasks with distinct valid ids, 32 decodable requests each), and then yields exactly those tasks, in order, decoded. |
| `TaskFormat.ParsedBlob` | cmd-ng/src/task_blob.rs:52-117 | Every accepted blob is of that form. |
| `TaskFormat.PrintedInjective` | cmd-ng/src/task_blob.rs:64-108 | A list of lines can be read as tasks in one way only. |
| `TaskFormat.Parse` | cmd-ng/src/task_blob.rs:52-117 | The loop over the lines computes the parse function. |
| `TaskFormat.LinesOfEnded` | cmd-ng/src/task_blob.rs:64-65 | Splitting gives back the lines, whether each of them ended in a newline or in a return and a newline, and whether or not the last one ended. |
| `TaskFormat.EndingsDoNotMatter` | cmd-ng/src/task_blob.rs:64-66 | How the lines of a blob end, and whether a return follows the last one, makes no difference to what is parsed. |
| `TaskFormat.MarkersAre` | cmd-ng/src/task_blob.rs:9-10 | The version line and the task marker, spelled out. |
| `TaskFormat.IdsAre` | cmd-ng/src/task_blob.rs:197-207 | An id is valid if and only if it has 1 to 31 bytes, none of them a space, tab, line break or `#`. |
| `TaskFormat.NormalizeExactly` | cmd-ng/src/task_catalog.rs:138-149 | Printing canonical requests into a blob and parsing it back decodes each of them in order, if and only if id and requests are within the limits; an id with line breaks or spaces is refused. |
| `TaskFormat.LinesOfTerminated` | cmd-ng/src/task_blob.rs:64-65 | Splitting lines that were joined with newlines gives them back. |

## Left out

Weaker than the source, or with an assumption:

- LogicRuns.ReadsAreLossless: sequence numbers stay below 2^64 - 1, which the code reserves; wrap-around is not modelled.
- ArenaThreads.RunKeepsInv: generations are unbounded; the source's are 32 bits wide, so the model covers runs with fewer than 2^32 increments. The hooks stay registered, `init` is not called again, and threads use only leases they were given.
- SerialLogQueue.FinishedSessionsAddUp: readers finish their sessions before the service shuts down; the shutdown command, the recovery of interrupted sessions and the retention run at startup are not modelled. Session ids are fresh.
- SerialLog.Archive.EnforceRetention: the directory listing, its order by start time, the set of expired directories and the lengths of manifest and index line are inputs; an error while a directory is removed is not modelled.
- SerialLog.OldestGoFirst: the start time is the key the source sorts by; which instant its text denotes is not modelled.
- BrokerRuns.ObserversSeeRedactedText: the operation ends with the claim or with the reader; at a host shutdown the unfinished line is dropped.
- Broker.ChannelState.Write: a write reaches the device as a whole or not at all; the request always carries data, which its parser guarantees.
- History.History.Expect: case-sensitive literals without U+FFFD; regular expressions and case folding are not modelled. The polls, with what arrives and whether the deadline has passed, are an input.
- TaskFormat.ParseExactly: what a request line decodes to is a parameter; `TaskBlob.ParseRecord` has its limits. The error messages are one error.
- SerialLogQueue.LogService.FinishSession: the source waits until the queue has room; the method is the moment at which it has.
- SerialLog.Archive.Start: session ids are random in the source and fresh in the model.
- CaptureArena.ArenaState.TryAcquireWide11Quiesced: assumes that a free arena is not being released, which `ArenaThreads.RunKeepsInv` shows of every run.
- LogicSession.Engine.Capture: the DMA writes only while a session is running.

Not modelled:

- WebSocket, HTTP and JSON formats, command lines, the user interfaces, and the status frames and log messages around the modelled steps.
- Real files, permissions and symbolic links, partial writes, buffering, serial port enumeration and timers as such.
- Null arguments, the session's `backend` string, status and name tables, backend selection and arena layout, which would add only easy members.
- `plan_window` and `export_marked_window` of the capture engine: their sum can wrap, and what the marked index means is settled elsewhere.
- The burst slots across sessions and the capture arbiter's single compare-and-swap.
- `classify_entry` of the codec, and the catalog response around the normalized requests.
- The waiting loop of the MCP `read`, and the commands and logins built on `expect`.
- Wrap-around of sequence numbers, cursors and saturating counters.
