# Listening Post: a verified model

Stations hear aircraft and forward every line they hear, at least once. A processor drops the repeats, folds the
messages into one picture per aircraft, and leaves a trace of every change. An archive keeps the raw events and can be
replayed through a second processor. This project models those stages in Dafny and proves what they promise together:
lost replies, crashes, reordered stations and replays leave one exact picture per aircraft. The history of traces is
exact through lost replies, crashes and re-reads; a replay, contrary to what is documented, can add rows to it, and the
project proves exactly when.

`dafny verify dfyconfig.toml` checks the whole project.

## How it is laid out

| file | what it models |
|---|---|
| `Wire.dfy`, `Order.dfy` | events, decoded messages, field values; string order, sorting, uniqueness of sorted sequences |
| `Aircraft.dfy` | one aircraft's keyed state: the class and its merge |
| `Convergence.dfy` | what a sequence of merges leaves, said without the merge; when arrival order cannot show |
| `StateFunction.dfy` | the keyed fold with its timers and outputs, and the timer service's catch-up |
| `Lifecycle.dfy` | whole runs: timers, expiry, lives, traces and their keys |
| `TopicView.dfy` | the reader of the compacted topic |
| `StationDedup.dfy` | the per-station filter |
| `Buffer.dfy`, `Publish.dfy`, `Delivery.dfy` | the station's buffer, one publish round over it, and every run of both with the gateway |
| `ExactlyOnce.dfy` | delivery and filter together, and the exact conditions |
| `Framing.dfy`, `Ingest.dfy`, `Heartbeat.dfy` | the station's line reader, ingest loop and heartbeat |
| `Consume.dfy` | poll, decode, flush, commit, with crashes and restarts |
| `History.dfy`, `Replayed.dfy` | the trace table under its natural key, and why a crashing writer's table is a clean pass's table |
| `Traces.dfy` | which messages leave a trace, under which keys, and how many rows they make |
| `Refold.dfy`, `RefoldInputs.dfy` | what a second fold, of whatever it heard in whatever order, adds to the table; inputs on which it adds a row |
| `Archive.dfy`, `Replay.dfy` | files per date, reading a day back, flushes that overlap, the replay in slices |
| `Pipeline.dfy` | end to end: live and replayed, the same messages, the same picture, every trace kept |
| `Backfill.dfy` | from the archiver's run to the second fold's picture and to what it adds to the table |

State that the sources change in place is a class whose methods are proved against a specification function; runs are
sequences of steps over those functions, and the promises are lemmas about all runs. Instants are microseconds since
the epoch, so a millisecond is `t / 1000` rounded down. A crash of the processor needs no step of its own: its state and
output commit together.

## Where the code and its documentation part

- A field is documented to belong to the newest message that carried it. The code uses 0 for "never set", so a message
  from before the epoch never sets a field: `Convergence.FoldFollowsDocumentIff` gives the exact condition,
  `Convergence.PreEpochCallsignIsDropped` an input.
- `Trace.java:7-9`, `db/migrations/00004_trace_key_without_event_id.sql:2-4` and the repository's `README.md:141` promise
  that a trace's key does not depend on the order of the fold, so that folding the archive again writes no new row, and
  `internal/archiver/flush.go:10-11` that a replay folds events the way they happened. The key holds `last_seen`, the
  newest time heard so far, and a replay need not hear what the live fold heard: a message late live comes in time
  (`RefoldInputs.LateEventHasTwoRows`); one that was no news live is news after an expiry
  (`RefoldInputs.ExpiryAddsARow`); and two stations in different partitions of the replay topic come in any interleaving,
  so that one in time live comes late (`RefoldInputs.InterleavingAddsARow`). Each adds a row. `Traces.OwnTimeIff` says
  when a key is its event's own. `Refold.RefoldAddsNothingIff`, of any two runs, and `Backfill.BackfillAddsNoRowIff`,
  from the archiver's run, say exactly when a replay adds no row; `Backfill.BackfillAgreesIff` when live and replayed rows
  agree, content and all. An aircraft that one station heard keeps the promise where the replay lets it expire at most
  where the live processor did (`Backfill.OneStationKeepsThePromise`); one that several heard, where the replay moreover
  hears it in time order (`Backfill.InOrderBackfillAddsNoRow`).
- `CONTEXT.md:43` says a trace lands only when the Payload changes. The code also writes one when only the position time
  moves: `Lifecycle.PayloadTracesOnlyIff` for a message, `Lifecycle.TracesMovePayloadIff` for a life,
  `Lifecycle.RepeatedPositionIsTraced` an input.
- The key is documented to tell events apart. Two reports of one aircraft by one station at one instant, nothing newer
  between them, share it: `Traces.OneRowPerTraceIff` is the exact condition over a whole run,
  `RefoldInputs.SecondReportIsDropped` an input.
- Timestamps of a station are documented as monotonic, which the filter is said to turn into exactly once. Exactly once
  needs them to rise strictly: `ExactlyOnce.ExactlyOnceIff`, `ExactlyOnce.TieIsNotExactlyOnce` an input. No loss needs
  that neighbours differ in time or fingerprint: `ExactlyOnce.NothingLostIff`, `ExactlyOnce.AlikeIsLost` an input.
- Overlapping archive files are documented as harmless. Two different batches that span the same first and last instant
  of a day share a file name, and the second replaces the first: `Replay.SameSpanLoses` is such a pair,
  `Replay.KeepsAllIff` the exact condition for a flush to lose nothing, `Replay.CommittedIsArchivedIff` the one for
  committed events to stay archived over a whole run.
- A recreated buffer is documented to be told by its counter. One that has already assigned as many ids as the old one
  is not: its rate, and the times of its last arrival and ack, are told exactly as `Heartbeat.UnseenRecreationIff` says;
  `Heartbeat.RecreationHidesALine` is an input on which all three are wrong.

## Model

| member | source | states |
|---|---|---|
| AircraftState.BinarySearch | flink/src/main/java/listeningpost/Aircraft.java:41 | on a sorted array the search is non-negative exactly when the station is there |
| AircraftState.Aircraft.Set | flink/src/main/java/listeningpost/Aircraft.java:69-79 | a present value at least as new as the last setter's is taken and stamped, and "changed" means the field's value did |
| AircraftState.Aircraft.Hear | flink/src/main/java/listeningpost/Aircraft.java:33-46 | first and last seen, the count and the sorted station array after one more message |
| AircraftState.Aircraft.Apply | flink/src/main/java/listeningpost/Aircraft.java:32-66 | all thirteen fields merged independently of their order, `dirty` set exactly when nothing changed, and the answer true exactly when Payload or position time changed |
| Convergence.FoldFields | flink/src/main/java/listeningpost/Aircraft.java:27-31 | after any messages each field and its stamp are those of the last to arrive among the newest, by millisecond, that carried it; never set otherwise |
| Convergence.PayloadIsNewest | flink/src/main/java/listeningpost/Aircraft.java:48-61 | each of the twelve attributes is the one the newest message that gave it gave, by millisecond, the later arrival on a tie; unknown when none not older than the epoch did |
| Convergence.PositionTimeIsNewest | flink/src/main/java/listeningpost/Aircraft.java:54-63 | the position time is the event time of the newest message that gave both coordinates |
| Convergence.FoldEnvelope | flink/src/main/java/listeningpost/Aircraft.java:33-46 | messages counts, firstSeen and lastSeen are the least and greatest times, stations is the sorted array of exactly those heard |
| Convergence.FoldFollowsDocumentIff | flink/src/main/java/listeningpost/Aircraft.java:27-31 | a field follows the documented newest-wins rule exactly when not all its carriers predate the epoch |
| Convergence.PreEpochCallsignIsDropped | flink/src/main/java/listeningpost/Aircraft.java:17 | an input on which it does not |
| Convergence.Converges | flink/src/main/java/listeningpost/Aircraft.java:32-79 | reordered messages leave the same snapshot and stamps when the newest carriers of each field agree |
| Convergence.OrderIndependentIff | flink/src/main/java/listeningpost/Aircraft.java:32-79 | arrival order never shows, over all orders, exactly when they agree |
| Convergence.SameSnapshotIff | flink/src/main/java/listeningpost/Aircraft.java:32-79 | any two sequences leave one snapshot exactly when they are as many messages, over the same time, from the same stations, and the newest carriers of each field agree |
| Convergence.PositionIsOneMessages | flink/src/main/java/listeningpost/Aircraft.java:54-63 | if latitude and longitude travel together, latitude, longitude and position time come from one and the same message |
| StateFunction.Operator.ProcessElement | flink/src/main/java/listeningpost/StateFunction.java:39-52 | one message's effect on state, timers, topic and traces |
| StateFunction.Operator.OnTimer | flink/src/main/java/listeningpost/StateFunction.java:55-71 | one timer's effect: nothing, tombstone and clear, or republish what is owed and rearm |
| StateFunction.Operator.CatchUp | flink/src/main/java/listeningpost/StateFunction.java:12-16 | firing due timers ends, touches no other aircraft, no trace and no merged value, retires an aircraft silent past the window, keeps one heard within expiry, and leaves nothing owed of one it swept and kept |
| Lifecycle.TimerChain | flink/src/main/java/listeningpost/StateFunction.java:41-70 | in every reachable state a live aircraft has exactly one timer, a key without state none, and the timer lies within expiry plus a sweep of the last message |
| Lifecycle.TombstoneTime | flink/src/main/java/listeningpost/StateFunction.java:60-64 | an aircraft is retired only by its own due timer, whose nominal time is after the expiry silence and at most a sweep later |
| Lifecycle.NextTimer | flink/src/main/java/listeningpost/StateFunction.java:41-70 | a life begins with a timer ten seconds away, a sweep that leaves the aircraft alive moves it on by ten seconds, and nothing else moves it |
| Lifecycle.RunFollowsLives | flink/src/main/java/listeningpost/StateFunction.java:18-20 | over any run an aircraft's picture and traces are a function of the messages in each of its lives alone |
| Lifecycle.TracesAreDeterministic | flink/src/main/java/listeningpost/StateFunction.java:18-20 | two runs told the same, in the same order, in each life, with any clocks, sweeps and expiry settings, emit the same traces and hold the same picture |
| Lifecycle.TracesAreExact | flink/src/main/java/listeningpost/StateFunction.java:47-50 | within a life neighbouring traces differ in Payload or position time, and the last carries the current values |
| Lifecycle.TracesMovePayloadIff | CONTEXT.md:43 | every trace of a life has another Payload than the one before exactly when no message of the life does that |
| Lifecycle.RepeatedPositionIsTraced | flink/src/main/java/listeningpost/Aircraft.java:62-65 | an input on which it does not hold |
| Lifecycle.TraceKeysAreDistinct | db/migrations/00004_trace_key_without_event_id.sql:2-7 | if no station reports one aircraft twice at one instant, no two traces of a fold share their key; a station may hear two aircraft at once |
| TopicView.Map.Fold | map/map.py:38-49 | the latest record per key, null removing, an unreadable one ignored |
| TopicView.ReadIsLatest | map/map.py:38-49 | over any records a reader holds, of each key, the latest snapshot it could read, unless a null came after; an unreadable record changes nothing |
| TopicView.TopicIsThePicture | flink/src/main/java/listeningpost/StateFunction.java:47-69 | in every reachable state the folded topic holds live aircraft only, exactly their snapshots when nothing is owed, their Payload and position time otherwise |
| TopicView.SweepShowsAll | flink/src/main/java/listeningpost/StateFunction.java:65-70 | in every reachable state a sweep that leaves an aircraft alive leaves the topic showing its whole snapshot, and publishes it exactly when the topic did not |
| StationDedup.Operator.ProcessElement | flink/src/main/java/listeningpost/StationDedup.java:36-51 | a message older than the mark, or equal in time and fingerprint, is dropped; any other passes and becomes the mark |
| StationDedup.StationsAreIndependent | flink/src/main/java/listeningpost/StationDedup.java:11-16 | however stations interleave, each is filtered as if alone, by its last passed message |
| StationDedup.Idempotent | flink/src/main/java/listeningpost/StationDedup.java:36-51 | filtering the output again changes neither it nor the marks |
| StationDedup.KeptWholeIff | flink/src/main/java/listeningpost/StationDedup.java:11-16 | a stream sent once passes whole exactly when times never fall and neighbours differ in time or fingerprint |
| StationDedup.PassesWholeIff | flink/src/main/java/listeningpost/StationDedup.java:26-51 | in the messages' own attributes: exactly when times never fall and no two in a row at one instant carry the same generated and logged times about the same aircraft |
| StationDedup.NullIsTakenForAbsent | flink/src/main/java/listeningpost/StationDedup.java:26-28 | an input on which an absent attribute and the text "null" are not told apart |
| StationDedup.OlderMarks | flink/src/main/java/listeningpost/StationDedup.java:40-46 | a mark of an older shape, without its time or its fingerprint, holds nothing of its instant back |
| StationDedup.WovenLosesNothing | flink/src/main/java/listeningpost/StationDedup.java:11-16 | an output woven from a source holds every event of it and nothing else |
| Buffer.Db.Append | station/buffer.py:58-67 | non-blank lines are added in order, numbered on from the last id ever assigned |
| Buffer.BlankIsRejected | station/buffer.py:58-67 | of each line as many are taken as there were, but of a blank one none |
| Buffer.Db.NextBatch | station/buffer.py:70-72 | the head of the queue, up to the limit |
| Buffer.Db.Ack | station/buffer.py:75-78 | exactly the batch's ids are removed |
| Buffer.AckTakesTheHead | station/buffer.py:75-78 | acknowledging a batch taken from the head leaves exactly the rest, still numbered without a gap |
| Publish.Publisher.Produce | internal/gateway/kafka.go:21-34 | a prefix of the post reaches the topic, and success means all of it |
| Publish.Publisher.PublishOnce | station/publish.py:13-20 | one round is one read, some produced events and either reply and delete or failure; rows go only on an answered, complete post |
| Delivery.BufferIsConserved | station/publish.py:13-20 | over every run the buffer is the accepted rows not yet acknowledged, ids contiguous up to the last assigned, a post is its head, and a row left only after it was produced |
| Delivery.AcceptedIsGiven | station/buffer.py:58-67 | over every run the rows accepted are exactly the non-blank lines given to append, in order, each with its time |
| Delivery.RunIsReady | station/buffer.py:58-78 | over every run of a chain of events the filter's output is woven from the published source and the filter stands ready for the next event |
| ExactlyOnce.RunIsExact | station/publish.py:13-20 | over every run of a station whose parsed events strictly rise, the filter's output is exactly the parsed events published, each once, in order |
| ExactlyOnce.NothingLost | flink/src/main/java/listeningpost/StationDedup.java:36-51 | with ties but no two neighbours alike, no event is lost, order is kept and a repeat that passes is as new as the newest |
| ExactlyOnce.ExactlyOnceIff | flink/src/main/java/listeningpost/StationDedup.java:11-16 | every run is exact for exactly the stations whose parsed events strictly rise |
| ExactlyOnce.TieIsNotExactlyOnce | flink/src/main/java/listeningpost/StationDedup.java:11-16 | two lines of one instant, posted twice after a lost reply: the first passes the filter twice |
| ExactlyOnce.NothingLostIff | flink/src/main/java/listeningpost/StationDedup.java:11-16 | no run loses an event for exactly the stations whose parsed events form a chain |
| ExactlyOnce.NoLossIff | flink/src/main/java/listeningpost/StationDedup.java:11-16 | in the messages' own attributes: no run loses an event for exactly the stations no two of whose parsed events in a row, at one instant, carry the same times about the same aircraft, and whose times never fall |
| ExactlyOnce.AlikeIsLost | flink/src/main/java/listeningpost/StationDedup.java:26-51 | two different lines about one aircraft at one instant, delivered once: the second is lost |
| Framing.LineReader.Read | station/ingest.py:74-86 | bytes taken, held and to come are conserved; a line is the next complete one; it receives only while none is complete, and answers None exactly at a timeout |
| Framing.LineReader.Drain | station/ingest.py:66-88 | for every chunking and every silence the lines read before the EOFError are exactly the complete lines of the stream, in order, and the incomplete end is left |
| Framing.StrippedIs | station/ingest.py:84 | a line loses every carriage return at its end and nothing else |
| Framing.LinesCutTheStream | station/ingest.py:84-86 | the lines and the rest are the newline-free pieces of the stream, with no byte lost |
| Ingest.Loop.TakeTurn | station/ingest.py:46-59 | one turn flushes by count or deadline, asks for a wait within the window and within the pending deadline, and keeps the line read |
| Ingest.LinesAreStamped | station/ingest.py:53-59 | the lines read are those of the turns before the end, each with the time the clock read once it was there |
| Ingest.Loop.Run | station/ingest.py:19-63 | on every exit each non-blank line read is in the buffer once and in order, `written` counts them, pending stays within the batch size, every write but the last is by count or deadline, every wait is the time to the deadline, and an exception comes out exactly when the peer did not close first |
| Ingest.AppendTwice | station/buffer.py:58-67 | how lines are cut into batches does not show in the buffer |
| Heartbeat.Monitor.Tick | station/heartbeat.py:72-81 | one turn of the loop reports and remembers what the sample and the last tick make; it ends the process exactly when two ticks share an instant and the counter has not gone back |
| Heartbeat.SamplesCount | station/heartbeat.py:44-45 | between two samples of one buffer the id difference is the rows appended and the depth balance the rows acknowledged |
| Heartbeat.ReportIsExact | station/heartbeat.py:29-56 | the rate counts exactly the arrivals, and the two times move exactly when there was an arrival or an ack |
| Heartbeat.ReportTells | station/heartbeat.py:32-56 | a report tells the remembered times, the depth and the oldest row's time; one of a first sample, or of a counter gone back, no rate and no times |
| Heartbeat.RateIsPerSecond | station/heartbeat.py:49 | the rate is events per second of a clock in microseconds |
| Heartbeat.HeartRemembers | station/heartbeat.py:41-56 | after any ticks and any recreations the remembered times are those of the latest interval with an arrival and with an ack since the last recreation the counter shows; after one it does not show, only more of either than the old buffer had counts |
| Heartbeat.UnseenRecreationIff | station/heartbeat.py:41-47 | after a recreation the counter does not show, the rate is right exactly when the old buffer had assigned no id, an arrival is told exactly when there were more than its ids, an ack exactly when there were more than its rows gone |
| Heartbeat.RecreationHidesALine | station/heartbeat.py:41-49 | an input: a line that arrived and was passed on, and neither is told |
| Consume.Worker.DecodePolled | internal/consume/consume.go:29-40 | decoding a poll stops at the first failure while everything polled counts as polled |
| Consume.Worker.FlushBatch | internal/history/run.go:63-77 | an empty batch does nothing; otherwise the batch is stored and then everything polled is committed, or nothing is committed |
| Consume.Worker.Batch | internal/consume/consume.go:21-57 | the loop over any rounds is the rounds' specification, exit paths included |
| Consume.TurnOutcome | internal/consume/consume.go:40-56 | over every run: when the context is cancelled, the interval is over or the limit reached, everything polled is stored and committed unless the flush fails; a failed decode or poll ends the loop with nothing stored; otherwise nothing is stored and it goes on |
| Consume.OffsetsAreSafe | internal/consume/consume.go:15-20 | over every run with crashes and restarts a committed offset is stored and decodable, no flush exceeds its limit and every poll asks for at least one record |
| History.Store.Insert | internal/history/store.go:26-44 | a prefix of the statements takes effect, all of them on success |
| History.TableHoldsFirst | internal/history/store.go:11-13 | under each key the table holds the first row written with it |
| History.ReinsertIsNoOpIff | internal/history/run.go:60-62 | writing rows again changes nothing exactly when all their keys are in the table |
| History.AnyOrderAgreesIff | internal/history/store.go:11-13 | the table is independent of order and repetition of writes exactly when a key names one trace |
| History.EveryTraceKeepsItsRow | db/migrations/00004_trace_key_without_event_id.sql:2-7 | if no station reports one aircraft twice at one instant, every trace written keeps its own row, however often and in whatever order it is written |
| Traces.OwnTimeIff | flink/src/main/java/listeningpost/Trace.java:5-9 | every trace of a life is keyed by its event alone exactly when each message traced arrived as the newest so far |
| Traces.SameTraceIff | flink/src/main/java/listeningpost/Trace.java:14-20 | two traces are the same, content and all, exactly when they are of one report and what had been heard by then was heard alike |
| Refold.RefoldAddsNothingIff | README.md:141 | of any two runs, writing the second's traces adds no row exactly when each message traced in a life of the second is one station's, at one instant, with one traced in a life of the first, the newest time heard by then being the same |
| Refold.RowsAgreeIff | internal/history/store.go:11-13 | where the first run's traces have a row each, the table holds every trace of the second, content and all, exactly when each message it traced was traced by the first having heard alike |
| Refold.RetracedAlikeIff | db/migrations/00004_trace_key_without_event_id.sql:2-4 | of the same reports, each heard once by the first fold, that is when each message traced again was itself traced, with the same newest time heard |
| Refold.InTimeRefoldIff | internal/archiver/flush.go:10-14 | and where the second fold hears them in time order, when each was traced as the newest of its life so far |
| RefoldInputs.LateEventHasTwoRows | db/migrations/00004_trace_key_without_event_id.sql:2-4 | an input on which the picture converges and one event gets a second row |
| RefoldInputs.ExpiryAddsARow | README.md:158 | an input, heard in time order, to which a replay that expires the aircraft in between adds a row |
| RefoldInputs.InterleavingAddsARow | internal/wire/wire.go:61-67 | an input, heard live in time order, never expired, each station in order both times, to which a replay that hears one station's partition first adds a row |
| Refold.InOrderAddsNothing | flink/src/main/java/listeningpost/Trace.java:5-9 | if the second fold's lives are in time order and every live life is an unbroken stretch of one, the second fold adds no row |
| Traces.OneRowPerTraceIff | db/migrations/00004_trace_key_without_event_id.sql:7 | a run's traces make a row each exactly when, of no aircraft, two traced messages of any of its lives are one station's, at one instant, with the same newest time heard by then |
| Traces.LaterReportIsDropped | internal/history/store.go:21 | of two such traces of a life the later one's row is dropped |
| RefoldInputs.SecondReportIsDropped | db/migrations/00004_trace_key_without_event_id.sql:2-7 | an input on which one is |
| Replayed.RunIsOrderly | internal/history/run.go:53-62 | what a crashing writer has stored never skips a record of a partition |
| Replayed.TableHoldsFirstRecord | internal/history/store.go:14-21 | under a key that stays in its partition the table holds the topic's first record with it |
| Replayed.CrashesDoNotShow | internal/history/run.go:60-62 | two writers that stored the same records, through any crashes, built the same table |
| Replayed.CommittedIsInTheTable | internal/history/run.go:53-55 | a committed trace's key is in the table |
| Archive.LessIsStrictTotal | internal/archiver/flush.go:10-14 | the canonical order is a strict total order on rows, so equal by it means the same row |
| Archive.AscendingReads | internal/archiver/flush.go:10-14 | in the canonical order time never falls, at one instant stations stand in order, and of one station no line comes twice nor out of order |
| Order.StringLessIff | internal/archiver/flush.go:12-14 | text compares by its first difference, a proper prefix being less |
| Archive.EventIsFiled | internal/archiver/parquet.go:23-44 | a gateway event keeps its station, time and line and goes to the day of its time |
| Archive.UndatedIff | internal/archiver/parquet.go:39-44 | a row has no date exactly when it has no station or its time is Go's zero time |
| Archive.UndatedIsKept | internal/archiver/parquet.go:23-44 | any other record keeps its bytes: a flush puts them in a file of dt=unknown |
| Archive.FileIsItsDay | internal/archiver/flush.go:16-29 | a day's file is its rows, as often as they occur, in order, and its name the first and last of their times |
| Archive.Store.GroupAndWrite | internal/archiver/flush.go:16-40 | one sorted file per date, named by its span, and after an error only whole days are in place |
| Archive.Compact | internal/archiver/read.go:43 | a sorted list becomes strictly ascending with the same rows |
| Archive.ReadDay | internal/archiver/read.go:29-44 | exactly the rows of the day's files, each once, in canonical order |
| Replay.Days | internal/archiver/read.go:13-23 | exactly the dates present, ascending, dt=unknown skipped; none is an error |
| Replay.SendDay | cmd/backfill/main.go:56-71 | the slices are of 5000 rows, the last of at most that and not empty, and concatenate to the day |
| Replay.Backfill | cmd/backfill/main.go:49-74 | every dated row of the archive, once, in one globally ascending sequence |
| Replay.KeepsAllIff | internal/archiver/flush.go:16-18 | a flush, complete or cut short, loses no archived row exactly when each row it overwrites is in the batch or in a file left alone |
| Replay.SameSpanLoses | internal/archiver/flush.go:29 | two rows on which a flush does lose one |
| Replay.ArchiveIsComplete | internal/archiver/flush.go:16-18 | for any overlapping batches whose flushes spare what they overwrite, the archive holds exactly the dated rows flushed |
| Replay.PartialFlushIsAFlush | internal/archiver/flush.go:27-38 | a flush cut short is a complete flush of the days it finished |
| Replay.ArchiveIsItsFlushes | internal/archiver/consume.go:36-54 | through any crashes the files are those of the flushes one after the other, each complete or a complete flush of the days it finished |
| Replay.CommittedIsArchivedIff | internal/archiver/consume.go:36-54 | through any crashes every committed dated event is in the archive at every moment exactly when no flush overwrites, unspared, an event committed by then |
| Pipeline.LivePart | flink/src/main/java/listeningpost/ProcessorJob.java:49-58 | in any interleaving of stations, what is folded of each is exactly what it accepted and could be parsed |
| Pipeline.BackfillIsReplay | cmd/backfill/main.go:1-4 | once the archiver has committed a topic, what is read back is the topic's events, each once, in archive order |
| Pipeline.ReplayPart | cmd/backfill/main.go:49-74 | however the replay's stations interleave, each station's part of it passes the filter whole and is its live part |
| Pipeline.InterleavingIsHeard | internal/wire/wire.go:61-67 | whatever interleaving of the replay's stations is folded, an aircraft's fold hears of each station what the filter lets through, in order |
| Pipeline.SameMessages | flink/src/main/java/listeningpost/ProcessorJob.java:49-61 | live and replayed, the fold hears the same messages, each exactly once, however the replay's stations interleave |
| Pipeline.ReplayConverges | flink/src/main/java/listeningpost/ProcessorJob.java:21-27 | however each hears its stations interleaved, the live and the shadow processor hold the same picture of an unexpired aircraft, and its message count is that of the distinct events |
| Pipeline.EveryLiveTraceIsKept | internal/history/store.go:11-13 | no trace of a fold of the delivered events, however their stations interleave, is lost to the natural key, however often it is rewritten |
| Backfill.BackfillConverges | cmd/backfill/main.go:1-4 | from the archiver's run, through crashes, files, read-back, partitions in any interleaving and filter, to the live picture again |
| Backfill.InOrderRefoldsTheSame | docs/adr/0002-backfill-through-a-shadow-pipeline.md:17 | an aircraft both processors heard in the archive's order, and let expire at the same places, leaves the same traces live and replayed |
| Backfill.OneStationKeepsThePromise | README.md:141 | an aircraft that one station heard gains no row from the replay, however stations interleave, where the shadow lets it expire at most where live; expired at the same places, it leaves the same traces |
| Backfill.InOrderBackfillAddsNoRow | README.md:158 | from the archiver's run: where the shadow hears every aircraft in time order and every live life is an unbroken stretch of one of its, the replay adds no row |
| Backfill.BackfillAddsNoRowIff | docs/adr/0002-backfill-through-a-shadow-pipeline.md:5 | from the archiver's run: however either hears its stations interleaved and whatever it lets expire, the shadow's traces add no row exactly when, for every aircraft, each message it traces was traced live, with the same newest time heard in its life by then |
| Backfill.BackfillAgreesIff | docs/adr/0002-backfill-through-a-shadow-pipeline.md:17 | live and replayed rows agree, content and all, exactly when, for every aircraft, each message the shadow traces was traced live having heard alike by then |

## Left out

- HTTP handlers, tokens, readiness probes, server start-up and shutdown: one-branch plumbing.
- Kafka, Flink, SQLite, Postgres and Parquet internals: logs, keyed state with timers, atomic table steps and a file map
  stand for them. That the processor's state and output commit together is Flink's, and assumed.
- The SBS-1 parser: `Wire.Parser` is any partial function on lines. Field values are compared, never computed with.
  `messageType`, `transmissionType` and `receivedAt` are not modelled; neither the filter nor the fold reads them.
- Byte decoding to text and time formatting: lines are bytes in `Framing` and strings elsewhere, a date is a day number
  and a file name its day and span, which the formats render one to one and in order.
- The snapshot object handed to the topic is a value here; that the runtime copies it before the fold changes it again
  is assumed.
- StateFunction.Operator.CatchUp: fires one aircraft's timers; the order between aircraft is free in `Lifecycle`.
- Replay.ArchiveIsComplete: asks that flushes spare what they overwrite, since file names can collide
  (`Replay.SameSpanLoses`), and speaks of dated rows only: dt=unknown has one file name for everything.
- Replayed.CrashesDoNotShow: asks that a key stay in its partition, as it does on one topic. The table of two topics, the
  live one and its replay twin, is that of `Backfill.BackfillAddsNoRowIff` and `Backfill.BackfillAgreesIff`, the live rows
  written first.
- Pipeline.ReplayConverges: speaks of an aircraft neither processor has let expire and of topics fully produced and
  archived; expiry splits lives at different points in the two. So does Backfill.BackfillConverges.
- Backfill.BackfillAddsNoRowIff: speaks of stations whose parsed events strictly rise, and of one uninterrupted replay; so
  do the other members of `Backfill`. Of any other two runs, `Refold.RefoldAddsNothingIff` says the same.
- Ingest.Loop.Run: waits are bounded relative to what the reader is asked for; the socket's timeout starts again with
  every chunk. An exception out of the append itself, after which the transaction's fate is SQLite's, is not modelled.
- Heartbeat.HeartRemembers: asks that the clock rise from tick to tick; two ticks at one instant divide by zero.
- Consumer-group rebalancing, several writers of one buffer, a station clock stepping back: the code runs one of each.
- The map page, the supervisor, scripts and migrations other than the natural key.
