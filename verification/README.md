# Verified models of cloudvelo

cloudvelo stores Velociraptor's data as documents in an append-only index and as
objects in S3. Much of its logic makes immutable documents behave like mutable,
versioned, ordered data. This project models that logic in Dafny and proves what
it is for. `dafny verify dfyconfig.toml` checks everything.

## How the model is built

- **The index** is a sequence of documents that only grows. What anybody can see
  of it at some moment is a prefix of what exists later, so a reader that runs
  beside writers is a reader whose n-th query sees some prefix at least as long
  as the one it was opened on. Timestamps are strictly increasing and version ids
  are fresh; writes succeed and are visible to the next step.
- **Objects that update their fields** are classes (`Index`, `ResultSetWriter`,
  `ResultSetReader`, `Plan`, `World`, `Service`, `MonitoringPlan`, `Uploader`,
  `BufferedWriter`, `Reader`, `LabelStore`). Their methods are proved against
  functions or predicates, and the promises are proved about those.
- **Loops** are methods with invariants. Iteration over a Go map picks an
  arbitrary remaining key; a read that may be short picks an arbitrary length; the
  order of unsorted search hits is an arbitrary function.
- **Foreign code** (JSON, regular expressions, the search engine's scoring) is a
  function passed in. A row is the text of its columns.

| file | content |
|---|---|
| `Jsonl.dfy`, `Text.dfy`, `Sequences.dfy`, `Wrappers.dfy` | lines of text, lower case and labels, sequences, option types |
| `ResultSets.dfy` | the documents of result sets, their queries and the packet walk |
| `ResultSetProtocol.dfy` | what writers do to the store, and whole histories of writers |
| `ResultSetObjects.dfy` | index, writer and reader objects |
| `FilterCache.dfy`, `FilterRaces.dfy` | filtered tables cached by timestamp, and built while the base is written |
| `Hunts.dfy`, `Foreman.dfy`, `Sweeps.dfy`, `Rounds.dfy` | eligibility, planning and scheduling, one sweep, the foreman's loop |
| `Monitoring.dfy` | monitoring tables memoised per label set |
| `Uploads.dfy`, `SparseUploads.dfy` | buffered multipart upload, sparse files and their index |
| `FlowIndex.dfy` | merging flow records, slow path and one-pass index |
| `Paging.dfy` | cursor paging over a changing store |
| `Labels.dfy`, `Vfs.dfy`, `HuntStats.dfy` | label scripts, directory assembly, batched counters |

## Where a promise does not hold everywhere

Some promises are false of some inputs. Each has a lemma that shows how, and a
lemma that says exactly when the promise holds.

- A reader opened on an **empty** result set is not pinned: it delivers nothing
  exactly when the set has not grown past its row by its first query
  (`ResultSets.SnapshotIsolation`, `ResultSetProtocol.UnpinnedReader`).
- A filter build that is cancelled **with nothing buffered** records nothing, and
  its partial table passes for the whole one; the cache stays right exactly when
  rows were buffered or no later row is kept (`FilterCache.AbortExact`,
  `FilterCache.UnsafeAbort`).
- A base write **during a filter build** can leave a cache that is newer than the
  base and lacks its rows; the cache is right exactly when the base cannot be read,
  the filter keeps of it what the build has seen, or nothing is buffered at the
  close and the base was published last (`FilterRaces.InterleavedExact`,
  `FilterRaces.AppendDuringBuild`).
- A filtered read that begins **during a build of the same filter** takes the
  half-written table for the cached one; what it delivers is right exactly when
  nothing is buffered and no remaining row is kept (`FilterRaces.ReadDuringBuild`,
  `FilterRaces.ReadAtStartEmpty`).
- Replanning after a sweep finds nothing **except** hunts without a start request,
  or whose scheduling call was not made or failed; the former are planned again and
  again and never scheduled
  (`Sweeps.ReplanFindsNothing`, `Sweeps.RequestlessPlannedAgain`).
- A hunt is scheduled twice on a client exactly after a scheduling call that
  **failed** when it had reached the client: nothing is recorded then, and a later
  sweep schedules the pair under the usual condition (`Rounds.OnlyFailedRepeat`,
  `Rounds.LostRepeatedExactly`, `Rounds.FailedCallRepeated`).
- A ping that becomes visible **after** a whole sweep began and queried since it
  was stamped is in no window; it is in one exactly when it was stamped after the
  sweep before the first that sees it began (`Rounds.PingCoveredExactly`,
  `Rounds.LatePingMissed`).
- Hunt start times are truncated to **microseconds**, which can put a hunt before
  the window of the first sweep that lists it; it is treated as newly started
  exactly when that does not happen (`Rounds.HuntCoveredExactly`,
  `Rounds.TruncatedHuntMissed`).
- A client that pings after a hunt was created gets it from the first sweep that
  knows of both, **unless** that sweep does not come to deal with the hunt or treats
  it as newly started more than three hours after the ping; then it gets it exactly
  if the ping lies in one of two later windows (`Rounds.PingAfterCreationReached`,
  `Rounds.ReachedExactly`, `Rounds.LongGapMissed`). A sweep that **fails** moves the
  window on all the same (`Rounds.AfterMissedRound`, `Rounds.FailedRoundMissed`).
- The merge comment at `services/launcher/flows.go:72-75` says that a completion
  replaces progress in whatever order they come. With an **ERROR** record it may not
  (`FlowIndex.ErrorOrderMatters`); `FlowIndex.CompletionExact` says exactly when it
  does, and `FlowIndex.OrderInsensitiveExactly` for which records the order cannot
  matter.
- Index and slow path fold the same records of every flow exactly when no embedded
  context names **another flow** than its document (`FlowIndex.SameItemsExactly`,
  `FlowIndex.MisnamedRecord`). Then the index refines the slow path exactly when no
  flow with a parsable record also has a document that is **no record**, which the
  index skips and the slow path fails on (`FlowIndex.IndexRefinesSlow`,
  `FlowIndex.MalformedRecord`).
- Paging by a sort field with **repeated values** loses documents exactly when a page
  ends inside a run of equal values (`Paging.DeliveredExactly`,
  `Paging.ScanCompleteExactly`). The foreman's queries for one client are sorted by
  client id, so they see everything exactly when it fits on one page
  (`Paging.OneKeyOnePage`, `Paging.OneKeyLoses`).
- All increments of a hunt counter are delivered exactly when no flush **failed**
  with counts of it and none was made on an updater **after its last flush**
  (`HuntStats.DeliveredExactly`). The second happens when an updater is flushed
  between look-up and increment (`HuntStats.LateIncrementLost`), or when two look-ups
  miss at the same time and one updater replaces the other in the cache
  (`HuntStats.OrphanLost`).
- The comment at `ingestion/services/hunts.go:167` says that everything is flushed
  before shutdown. The flush runs with the context whose end started the shutdown, so
  it fails (`HuntStats.PurgeLoses`); everything is persisted exactly when it had been
  by then and nothing was counted since (`HuntStats.ShutdownExactly`).
- The full scan of a directory reads its **oldest ten thousand** records, the side
  panel its newest listing. Both show the same listing when no listing lies past the
  limit (`Vfs.PanelsAgree`), and the scan sees the panel's record exactly then
  (`Vfs.PanelSeenExactly`).

The comment at `services/elasticsearch.go:640-642` calls the results of `QueryChan`
approximate; `Paging.DeliveredExactly` says which documents are delivered.
The comment at `result_sets/simple/reader.go:51-53` calls seeking approximate; the
code skips to the exact row and the model follows the code.

## Model

| member | source | states |
|---|---|---|
| `Jsonl.LinesAppend` | result_sets/simple/writer.go:56-69 | appending newline-terminated JSONL to the buffer appends exactly its lines |
| `Jsonl.JoinLines` | result_sets/simple/reader.go:152-158 | taking a packet apart at newlines loses no byte |
| `Jsonl.LinesExact` | result_sets/simple/reader.go:152-158 | a line ends at its first newline, and only the last one may lack it |
| `ResultSets.GetPacket` | result_sets/simple/reader.go:59-123 | whatever hit comes first, it is a visible packet of the version that covers the row |
| `ResultSets.GetPacketFinds` | result_sets/simple/reader.go:112-122 | a visible packet that covers the row is never missed |
| `ResultSets.AnyPacketFirst` | result_sets/simple/reader.go:59-123 | and every visible packet that covers the row may be the one found |
| `ResultSets.PacketHolds` | result_sets/simple/writer.go:72-86 | packets of a version tile it: each holds exactly the lines of the row interval it declares |
| `ResultSets.PacketExists` | result_sets/simple/writer.go:72-86 | every row of a version is in some packet |
| `ResultSets.Boundary` | result_sets/simple/writer.go:83-84 | the length a version had at any moment stays a packet boundary for ever |
| `ResultSets.LastEndIsLength` | result_sets/simple/reader.go:266-325 | the last packet's end row is the number of rows of the version |
| `ResultSets.MetadataNewest` | result_sets/simple/metadata.go:42-81 | the metadata query finds the newest record of the path, or the legacy record if and only if there is none |
| `ResultSets.MetadataBoundary` | result_sets/simple/metadata.go:42-81 | the end row it finds was the version's length at some moment |
| `ResultSets.OpenedAtBoundary` | result_sets/simple/factory.go:93-135 | a reader pins a version and an end row that is a packet boundary, also through the backwards compatible query |
| `ResultSets.PacketFound` | result_sets/simple/reader.go:145-172 | below the pinned end row every query, at any later moment, finds a packet that continues exactly there and does not reach past the pinned end |
| `ResultSets.WalkExact` | result_sets/simple/reader.go:134-182 | from any row the walk delivers the remaining pinned rows, in order and once each |
| `ResultSets.Progress` | result_sets/simple/reader.go:135-138 | on any store a turn of the walk either comes closer to the end of all packets or triggers the no-progress guard |
| `ResultSets.SnapshotIsolation` | result_sets/simple/factory.go:104-134 | a reader opened on a non-empty set delivers exactly the rows present then, whatever is appended or truncated while it reads; on an empty set it delivers nothing exactly when the set has not grown past its row by its first query |
| `ResultSetProtocol.SetMetadataGood` | result_sets/simple/metadata.go:83-91 | publishing metadata makes its version the content of the path and touches no other path |
| `ResultSetProtocol.OpenWriterGood` | result_sets/simple/factory.go:49-91 | truncating starts from nothing under a new id and a newer timestamp; appending continues the newest version |
| `ResultSetProtocol.FlushGood` | result_sets/simple/writer.go:130-148 | a flush moves the buffered lines into the current version and publishes its new length |
| `ResultSetProtocol.WriteJSONLGood` | result_sets/simple/writer.go:56-69 | a write adds exactly its lines to what was written, whether or not it flushes |
| `ResultSetProtocol.BufferBounded` | result_sets/simple/writer.go:63-68 | what stays buffered after a write is within both limits |
| `ResultSetProtocol.FlushesExactly` | result_sets/simple/factory.go:37-45 | a write is stored at once exactly when the buffer goes beyond the configured limits, by default 1000 rows and a megabyte |
| `ResultSetProtocol.ApplyGood` | result_sets/simple/writer.go:103-148 | every writer operation keeps the invariant of store and writer |
| `ResultSetProtocol.HistoryContent` | result_sets/simple/factory.go:49-91 | after every history of truncating and appending sessions the newest version holds what was written since the last truncation |
| `ResultSetProtocol.ReadBack` | result_sets/simple/reader.go:125-187 | a reader opened after any history and seeked to any row delivers exactly what was written since the last truncation from that row on, and knows the number of rows |
| `ResultSetProtocol.ReadBackBytes` | result_sets/simple/reader.go:189-245 | from row 0 that is byte for byte what was written |
| `ResultSetProtocol.HistorySnapshot` | result_sets/simple/reader.go:134-182 | a reader opened at any moment of any history is not disturbed by the rest of it |
| `ResultSetProtocol.UnpinnedReader` | result_sets/simple/factory.go:104-134 | on every store: a truncation, a reader opened, one appended row, and the reader of no rows delivers one |
| `ResultSetProtocol.FailedFlushUnreadable` | result_sets/simple/writer.go:88-94 | after a synchronous write that failed any number of times the set cannot be opened, so the gap it left is never read |
| `ResultSetProtocol.FailedFlushGap` | result_sets/simple/writer.go:76-94 | the buffered lines are stored once, behind a gap of one buffer for each failed attempt, and the set is marked |
| `ResultSetProtocol.WriteAttemptsExact` | result_sets/simple/writer.go:56-94 | a write stores nothing within the limits, and beyond them a failed one leaves the set unreadable |
| `ResultSetObjects.Index.SetResultSetMetadata` | result_sets/simple/metadata.go:83-91 | stamps and appends the record as the protocol says |
| `ResultSetObjects.ResultSetWriter.constructor` | result_sets/simple/factory.go:27-91 | opens as the protocol says |
| `ResultSetObjects.ResultSetWriter.WritePacket` | result_sets/simple/writer.go:71-101 | stores one packet from the current row and moves the row and the metadata's end row behind it; a failed attempt aborts, which flushes the same buffer again |
| `ResultSetObjects.ResultSetWriter.Flush` | result_sets/simple/writer.go:130-148 | flushes as the protocol says, nothing when no row is buffered, also when attempts fail |
| `ResultSetObjects.ResultSetWriter.WriteJSONL` | result_sets/simple/writer.go:56-69 | buffers and flushes as the protocol says, also when attempts fail |
| `ResultSetObjects.ResultSetWriter.Write` | result_sets/simple/writer.go:103-119 | one serialised row, as the protocol says, also when attempts fail; a row that does not serialise changes nothing |
| `ResultSetObjects.ResultSetWriter.Close` | result_sets/simple/writer.go:150-152 | flushes |
| `ResultSetObjects.ResultSetWriter.Abort` | result_sets/simple/writer.go:50-54 | marks the set incomplete and flushes, so nothing at all happens to the store when nothing is buffered |
| `ResultSetObjects.ResultSetReader.SeekToRow` | result_sets/simple/reader.go:54-57 | sets the row |
| `ResultSetObjects.ResultSetReader.JSON` | result_sets/simple/reader.go:189-245 | terminates on any store, also with overlaps, gaps and wrong row counts, and emits the walk, or as much of it as is received before the context is cancelled |
| `ResultSetObjects.ResultSetReader.Rows` | result_sets/simple/reader.go:125-187 | terminates likewise, and delivers exactly the lines of that stream that parse, parsed and in order |
| `ResultSetObjects.WriteThenRead` | result_sets/simple/reader.go:54-57 | every history run on the objects and read back from any row gives what was written |
| `FilterCache.FeedWriter` | result_sets/simple/transformed.go:94-118 | writes exactly the rows that have the column and match, or do not match under exclude |
| `FilterCache.GetFilteredReader` | result_sets/simple/transformed.go:42-142 | uses the cache, builds it, or aborts, as the protocol says |
| `FilterCache.CachePathInjective` | result_sets/simple/transformed.go:57-67 | different filters of one table have different cache paths, none of them the table's own |
| `FilterCache.BaseReadUndisturbed` | result_sets/simple/transformed.go:94-107 | reading the base while the cache is being written gives the base's rows |
| `FilterCache.CompleteBuild` | result_sets/simple/transformed.go:77-136 | a completed build leaves a readable table holding exactly the kept rows in base order |
| `FilterCache.AbortExact` | result_sets/simple/transformed.go:120-123 | a cancelled build leaves a correct cache if and only if rows were still buffered or no later row is kept |
| `FilterCache.UnsafeAbort` | result_sets/simple/writer.go:50-54 | three kept rows, two to a packet, cancelled after the second: the abort leaves a wrong cache |
| `FilterCache.BaseStepWrites` | result_sets/simple/writer.go:50-148 | what each base write adds to the base: truncating starts from nothing, a write adds its lines, closing and aborting store them all |
| `FilterCache.BaseStepKeeps` | result_sets/simple/transformed.go:69-75 | every base write keeps all caches right, by making the base newer |
| `FilterCache.ReadStepKeeps` | result_sets/simple/transformed.go:69-142 | every filtered read keeps all caches right, its own and those of other filters |
| `FilterCache.FilteredReadAgrees` | result_sets/simple/transformed.go:42-142 | after every run of base writes, filtered reads and safely cancelled builds, a filtered read delivers exactly the kept base rows in base order, cached or not, and fails only when the base cannot be opened |
| `FilterCache.KeptExact` | result_sets/simple/transformed.go:107-117 | the kept rows are exactly those that have the column and match, or do not match under exclude, in order |
| `FilterCache.UnfilteredRead` | result_sets/simple/transformed.go:50-55 | without a column or an expression the base itself is read and nothing is written |
| `FilterCache.CancelledRead` | result_sets/simple/transformed.go:71-75 | a usable table is used whatever happens; a read whose build is cancelled fails |
| `FilterCache.RunWrites` | result_sets/simple/writer.go:50-148 | after every run of base writes and filtered reads the base holds what was written to it since it was last truncated |
| `FilterCache.FilteredReadOfWritten` | result_sets/simple/transformed.go:42-142 | so a filtered read between sessions delivers exactly what the filter keeps of that |
| `FilterRaces.RowsPinned` | result_sets/simple/transformed.go:94-107 | a build on a non-empty base reads the rows that were there when it began, whatever is written meanwhile |
| `FilterRaces.MovesUndisturbed` | result_sets/simple/transformed.go:94-118 | however base writes and the build interleave, neither writer disturbs the other |
| `FilterRaces.InterleavedExact` | result_sets/simple/transformed.go:69-136 | such a build leaves a correct cache if and only if, when it closes, the base cannot be read, the filter keeps of it what the build has seen, or nothing is buffered and the base was published last |
| `FilterRaces.StaleBuild` | result_sets/simple/transformed.go:69-75 | if the last row taken is kept and the base has changed in what is kept of it, the cache is wrong and will be used |
| `FilterRaces.AppendDuringBuild` | result_sets/simple/transformed.go:69-136 | one kept row appended in the middle of a build does that |
| `FilterRaces.ReadDuringBuild` | result_sets/simple/transformed.go:69-75 | a filtered read during a build of the same filter delivers what is stored so far, which is right if and only if nothing is buffered and no remaining row is kept |
| `FilterRaces.ReadAtStartEmpty` | result_sets/simple/factory.go:71-76 | one that begins right after the build delivers nothing at all |
| `Hunts.GetMinimalClientInfo` | foreman/foreman.go:141-192 | the merged record says of assignments, labels up to case and system what the documents say, without repeats |
| `Hunts.ClientHasLabels` | foreman/foreman.go:768-776 | true exactly when some label matches up to case |
| `Hunts.CheckCondition` | foreman/foreman.go:244-279 | the label, exclusion and operating system tests together |
| `Hunts.SystemExact` | foreman/foreman.go:266-277 | a hunt for Windows, Linux or macOS suits exactly the clients that report windows, linux or darwin, a hunt for all suits any |
| `Hunts.LastSystem` | foreman/foreman.go:186-188 | what a client reports is the system of its last document that has one |
| `Hunts.NoSystem` | foreman/foreman.go:186-188 | and nothing when none has |
| `Hunts.ShouldAssign` | foreman/foreman.go:226-283 | assigns exactly when the hunt is not assigned yet and the documents meet its condition |
| `Hunts.GetClientHuntMembership` | foreman/foreman.go:479-507 | of the hunts asked about, finds exactly the assigned ones |
| `Hunts.WantsAppend` | foreman/plan.go:220-233 | an assignment record takes its own hunt off a client's wanted list and changes nothing else |
| `Foreman.HuntsContain` | foreman/foreman.go:778-785 | finds a hunt by id |
| `Foreman.Plan.AssignClientToHunt` | foreman/plan.go:54-62 | adds the hunt at the end of the client's list unless its id is there |
| `Foreman.Plan.PlanHunts` | foreman/foreman.go:399-421 | the plan holds exactly the wanted hunts of the enumerated clients, repeats or not, whatever assignments of other hunts appear meanwhile |
| `Foreman.Plan.Invert` | foreman/plan.go:181-195 | HuntsToClients is the duplicate-free transpose of ClientIdToHunts |
| `Foreman.Plan.ScheduleHunt` | foreman/plan.go:202-233 | a hunt with a request is scheduled and recorded on all its clients, one without is skipped; a failed call may have reached some clients and records none |
| `Foreman.Plan.ExecuteHuntUpdate` | foreman/plan.go:176-237 | up to the first call that fails, schedules exactly the planned pairs whose hunt has a request, once each, and records exactly those; what the failed call reached is of a hunt not dealt with |
| `Foreman.AssignmentsRecorded` | foreman/plan.go:222-232 | the records written say exactly which pairs were scheduled |
| `Sweeps.SplitHunts` | foreman/foreman.go:367-386 | partitions the hunts into those started since the last sweep and the others |
| `Sweeps.WindowExact` | foreman/foreman.go:306-318 | hunts started since the last sweep are offered to clients that pinged within three hours, the others to those that pinged since the last sweep |
| `Sweeps.RunSweep` | foreman/foreman.go:354-424 | the pairs one sweep schedules are exactly the eligible ones of the hunts it deals with, once each, although the two plans run side by side; without failures those are all hunts |
| `Sweeps.SiblingForeign` | foreman/foreman.go:392-397 | what one of the two plans records is no concern of the other |
| `Sweeps.ReplanFindsNothing` | foreman/foreman.go:226-283 | planning again on the resulting store finds exactly the planned hunts that have no start request or were not dealt with, and only the latter are still eligible |
| `Sweeps.RequestlessPlannedAgain` | foreman/plan.go:206-208 | a hunt without a start request is planned by every sweep |
| `Rounds.Start` | foreman/foreman.go:710-746 | every run of the service has the timeline and the history that the results below are about: windows abut, each sweep schedules exactly the eligible pairs of the hunts it deals with, a failed first one ends the service |
| `Rounds.Service.RunOnce` | foreman/foreman.go:622-669 | one round: lists the hunts, reads the clock, enumerates the clients and sweeps |
| `Rounds.AtMostOnce` | foreman/plan.go:215-233 | in no run, with anything happening in between that keeps assignments visible, do two successful calls schedule a hunt on the same client |
| `Rounds.OnlyFailedRepeat` | foreman/plan.go:214-233 | after a successful call no other, successful or not, reaches the client with that hunt |
| `Rounds.LostRepeatedExactly` | foreman/plan.go:214-218 | after a failed one it is scheduled under the same condition as if the call had not been made |
| `Rounds.FailedCallRepeated` | foreman/plan.go:87-106 | a run in which a failed call reaches a client and the next sweep schedules it again |
| `Rounds.PingCoveredExactly` | foreman/foreman.go:710-746 | a client's last ping puts it into some sweep's list of recent clients if and only if it was stamped after the sweep before the first that sees it began, which is so whenever a ping is visible when it is stamped |
| `Rounds.LatePingMissed` | ingestion/ping.go:20-29 | a ping is stamped before it is written, and can fall between the windows |
| `Rounds.HuntCoveredExactly` | foreman/foreman.go:378-386 | some sweep treats a hunt as newly started if and only if its recorded start is not before the window of the first sweep that lists it, which is so whenever start and creation agree |
| `Rounds.TruncatedHuntMissed` | foreman/foreman.go:379-380 | truncation to microseconds can lose a hunt the backlog of clients |
| `Rounds.ScheduledExactly` | foreman/foreman.go:226-283 | a client that awaits a hunt gets it if and only if its ping lies in the window of some sweep that deals with the hunt |
| `Rounds.ReachedExactly` | foreman/foreman.go:360-424 | and that is decided by two of them: the first, and the first that does not treat the hunt as newly started |
| `Rounds.DecisiveExist` | foreman/foreman.go:360-424 | every run has those two, or none |
| `Rounds.PingAfterCreationReached` | foreman/foreman.go:306-318 | for a ping after the hunt's creation the first sweep that knows of both is enough, unless it does not deal with the hunt or treats it as new more than three hours later |
| `Rounds.AfterMissedRound` | foreman/foreman.go:732-746 | a sweep that does not come to deal with a hunt moves the window on: the next one reaches the client if and only if the ping was stamped after the former began |
| `Rounds.LongGapMissed` | foreman/foreman.go:306-318 | a run in which the three hours are exceeded and the client never gets the hunt |
| `Rounds.FailedRoundMissed` | foreman/foreman.go:732-746 | a run in which a failed sweep loses a ping |
| `Monitoring.GetClientUpdateEventTableMessage` | foreman/event_monitoring.go:54-101 | the events of the base table and of the tables of the client's labels, with waits and timeouts filled in |
| `Monitoring.AdjustEvents` | foreman/event_monitoring.go:84-95 | the waits and timeouts |
| `Monitoring.MessageWaits` | foreman/event_monitoring.go:84-95 | every event waits some time and never times out; its own wait, then the configured one, then 120 |
| `Monitoring.EventsExact` | foreman/event_monitoring.go:75-82 | an event is included exactly when a table whose label the client has contains it |
| `Monitoring.ApplicableExact` | foreman/event_monitoring.go:75-82 | the tables that apply are exactly those whose label the client has, in table order |
| `Monitoring.EventsInOrder` | foreman/event_monitoring.go:75-82 | their events follow each other table by table |
| `Monitoring.BaseEventsFirst` | foreman/event_monitoring.go:68-82 | behind the events of the base table |
| `Monitoring.LabelsKey` | foreman/event_monitoring.go:103-114 | the key joins the client's labels that have a table |
| `Monitoring.JoinInjective` | foreman/event_monitoring.go:113-113 | joining by bars is injective on lists of non-empty parts without bars |
| `Monitoring.KeyDeterminesMessage` | foreman/event_monitoring.go:103-114 | equal keys of clients with accepted labels mean equal events, for every event table |
| `Monitoring.BarredLabelsCollide` | services/labeler/labeler.go:20-20 | without the labeler's restriction that fails |
| `Monitoring.MonitoringPlan.PlanMonitoringForClient` | foreman/foreman.go:194-224 | plans exactly the clients that need it, every listed client is under the key whose memoised message is its own, and the client's record gets the new version |
| `Uploads.Uploader.Put` | vql/uploads/uploader.go:321-373 | sends the next numbered part and a message that continues where the last one ended |
| `Uploads.Uploader.UpdateServerStat` | vql/uploads/uploader.go:379-428 | the message's offset, sizes and flags |
| `Uploads.Uploader.SetIndex` | vql/uploads/uploader.go:132-145 | takes the index and the end of its last range as size |
| `Uploads.Uploader.Close` | vql/uploads/uploader.go:430-478 | commits all parts and sends EOF the first time, does nothing the second |
| `Uploads.BufferedWriter.Flush` | vql/uploads/buffer.go:21-30 | sends the buffered bytes as one part |
| `Uploads.BufferedWriter.Copy` | vql/uploads/buffer.go:46-77 | for every pattern of short reads, appends exactly the bytes read, keeping every part one buffer long; stops before the length only after a read that returned nothing, and fails exactly if that read did |
| `Uploads.BufferedWriter.Close` | vql/uploads/buffer.go:32-44 | sends the rest, so that the parts hold everything copied, all but the last one buffer long |
| `Uploads.UploadPlain` | vql/uploads/vql.go:176-197 | numbered parts of the file's bytes, tiling messages, one commit and one EOF although Close is called twice; all of the file, up to ten gigabytes, when reads return nothing only at its end |
| `SparseUploads.PrepareIndex` | vql/uploads/sparse.go:38-66 | the index, the stored size, the real size and whether any range is sparse |
| `SparseUploads.CopyRanges` | vql/uploads/sparse.go:74-88 | never more than expected is copied, and if all that is expected then the non-sparse ranges in order; all of it when the ranges lie inside the source and reads return nothing only at its end |
| `SparseUploads.UploadSparse` | vql/uploads/sparse.go:15-116 | stored bytes, reported sizes, the index file and the uploader's index |
| `SparseUploads.UploadRanges` | vql/uploads/vql.go:151-173 | the same with one commit and one EOF for each of the two files; when every range was delivered in full the index reconstructs the source from what is stored |
| `SparseUploads.IndexReconstructs` | vql/uploads/sparse.go:40-66 | when every range is delivered in full, each index entry points at the bytes of its range in the stored file, and at nothing for a sparse range |
| `SparseUploads.IndexTiles` | vql/uploads/sparse.go:40-66 | the index entries tile the stored file, sparse ones taking up nothing |
| `SparseUploads.StoredReconstructs` | vql/uploads/sparse.go:74-111 | what was copied is then exactly that stored file |
| `SparseUploads.RealSizeIsMax` | vql/uploads/sparse.go:63-65 | the reported size is the largest range end |
| `SparseUploads.LastEndIsSize` | vql/uploads/uploader.go:143-144 | the size set with the index equals the reported size if and only if no range ends after the last |
| `FlowIndex.MergeRecords` | services/launcher/flows.go:35-91 | the branch by branch merge is the field-wise one |
| `FlowIndex.LastValueWins` | services/launcher/flows.go:43-70 | each total and time is that of the last record with a positive value |
| `FlowIndex.LastRequestWins` | services/launcher/flows.go:39-41 | the request is that of the last record with one |
| `FlowIndex.TwoRecords` | services/launcher/flows.go:35-70 | the merge of two records, field by field |
| `FlowIndex.NothingStaysNothing` | services/launcher/flows.go:39-88 | what no record sets stays as it was |
| `FlowIndex.LastErrorStatus` | services/launcher/flows.go:85-88 | the status is that of the last record in ERROR |
| `FlowIndex.StatsExact` | services/launcher/flows.go:72-81 | the stats are those of the first record that has any, unless that shows progress and nothing failed before the next record that no longer runs; then they are the latter's |
| `FlowIndex.FirstRecordKept` | services/launcher/storage.go:327-332 | everything the merge does not carry over is the first record's |
| `FlowIndex.FoldsAgree` | services/launcher/index.go:101-112 | starting from an almost empty context and starting from the first record agree on every promised field |
| `FlowIndex.LoadCollectionContextSlow` | services/launcher/storage.go:299-340 | the fold of the flow's own records; an error when one of them is no record at all or there is none that parses |
| `FlowIndex.ItemsExact` | schema/api/collections.go:25-46 | the contexts folded are those of exactly the flow's documents that parse, in order, with the ids of the document where they have none |
| `FlowIndex.GroupRecords` | services/launcher/index.go:87-113 | the one pass gives each flow the fold of the contexts that name it, however they interleave |
| `FlowIndex.SortFlows` | services/launcher/index.go:115-123 | every group once, in descending order of id |
| `FlowIndex.LessExact` | services/launcher/index.go:121-123 | the order is the lexicographic one |
| `FlowIndex.BuildIndex` | services/launcher/index.go:68-161 | one row for each flow that some context names, in descending order, each merging those contexts as the slow path would |
| `FlowIndex.SameItemsExactly` | schema/api/collections.go:25-46 | index and slow path fold the same contexts of every flow if and only if no context names another flow than its document |
| `FlowIndex.RowsAreFolds` | services/launcher/index.go:87-123 | then the index lists exactly the flows with a record that parses, once each and in strictly descending order, each agreeing with the fold of its records |
| `FlowIndex.IndexRefinesSlow` | services/launcher/storage.go:299-340 | and it lists what the slow path finds, each row agreeing with it, if and only if no flow with a record that parses has a document that is no record |
| `FlowIndex.MalformedRecord` | services/launcher/storage.go:316-320 | otherwise the index lists a flow on which the slow path fails |
| `FlowIndex.MisnamedRecord` | services/launcher/index.go:101-112 | otherwise the slow path can find a flow that the index does not list |
| `FlowIndex.CalcFlowOutcome` | ingestion/hunts.go:52-73 | completed exactly when no query is in progress, failed when completed with an error |
| `FlowIndex.ErrorSticks` | services/launcher/flows.go:83-88 | the merged state is ERROR exactly when some record's is |
| `FlowIndex.CompletionExact` | services/launcher/flows.go:72-81 | the merged stats are completed if and only if some record's are and it came before any other stats or before any error |
| `FlowIndex.CompletionFound` | services/launcher/flows.go:72-81 | without errors, exactly when some record's are |
| `FlowIndex.StateOrderInsensitive` | services/launcher/flows.go:83-88 | whether the state is ERROR does not depend on the order |
| `FlowIndex.OrderInsensitiveExactly` | services/launcher/flows.go:72-88 | all orders agree on completion if and only if no record is completed, or every error is, or no record shows progress |
| `FlowIndex.ErrorOrderMatters` | services/launcher/flows.go:22-33 | with an error record the order decides whether completed stats are kept |
| `Paging.Search` | services/elasticsearch.go:833-877 | the smallest matches beyond the cursor, in order |
| `Paging.QueryChan` | services/elasticsearch.go:643-737 | each page shows the matches behind the last key of the page before, all but the last page are full, and the scan ends if the store stops changing |
| `Paging.KeysAdvance` | services/elasticsearch.go:719-727 | keys grow strictly from page to page |
| `Paging.DeliveredExactly` | services/elasticsearch.go:686-727 | a document that matches throughout with an unchanged key is delivered if and only if no page ends among documents with its key and leaves it out |
| `Paging.DeliveredOnce` | services/elasticsearch.go:686-713 | and never twice |
| `Paging.UniqueKeyDelivered` | services/elasticsearch.go:643-737 | with a key of its own it always is |
| `Paging.ScanCompleteExactly` | services/elasticsearch.go:643-737 | a scan of an unchanging store delivers everything if and only if no page boundary falls inside a run of equal keys |
| `Paging.OneKeyOnePage` | foreman/foreman.go:152-154 | when all keys are equal that means that everything fits on one page |
| `Paging.OneKeyLoses` | foreman/foreman.go:152-154 | and otherwise some document is never delivered |
| `Labels.LabelStore.SetClientLabel` | services/labeler/labeler.go:60-120 | rejects other characters; adds the label at the end unless present up to case, in which case nothing changes; a new label resets what the foreman has done |
| `Labels.LabelStore.RemoveClientLabel` | services/labeler/labeler.go:122-146 | the backward in-place loop removes the label from both lists and keeps the others in order |
| `Labels.WithoutExact` | services/labeler/labeler.go:124-130 | removal keeps exactly the labels that differ |
| `Labels.WithoutPicks` | services/labeler/labeler.go:124-130 | removal keeps exactly the labels that differ in more than case, in order |
| `Labels.TrimExact` | services/labeler/labeler.go:90-90 | trimming cuts off exactly the white space at both ends |
| `Labels.SpaceExact` | services/labeler/labeler.go:90-90 | white space is what Unicode says it is |
| `Text.LabelExact` | services/labeler/labeler.go:20-20 | a label consists of letters, digits, dollar signs, hyphens and underscores |
| `Text.LowerExact` | services/labeler/labeler.go:61-63 | two labels have the same lower case exactly when they differ only in the case of letters |
| `Labels.RunCommands` | services/labeler/labeler.go:85-146 | after every sequence of commands the lists are parallel, lower case and without duplicates, and hold the expected labels |
| `Labels.SetIdempotent` | services/labeler/labeler.go:61-61 | setting a label twice is setting it once |
| `Labels.RemoveUndoesSet` | services/labeler/labeler.go:122-131 | removing a label just set restores the labels |
| `Vfs.Assemble` | services/vfs_service/assembler.go:116-133 | the last listing and the latest download per document id |
| `Vfs.DecodeDownloads` | services/vfs_service/assembler.go:144-163 | shows exactly the downloads in flight or stored, one for each file; the version is the largest time of all, failed ones included |
| `Vfs.ReadDirectoryWithDownloads` | services/vfs_service/assembler.go:94-166 | the listing, its version and the shown downloads; nothing without a listing |
| `Vfs.NewestOwnIsLastListing` | services/vfs_service/assembler.go:31-55 | the single document query finds the last listing |
| `Vfs.LastListingExact` | services/vfs_service/assembler.go:123-125 | that is the listing of the last record that carries one |
| `Vfs.PanelSeenExactly` | services/vfs_service/assembler.go:57-80 | what the single document query finds is within the scan's limit if and only if no listing lies past it |
| `Vfs.PanelsAgree` | services/vfs_service/assembler.go:168-198 | both views show the same listing for every history in which no listing lies past the scan's limit |
| `HuntStats.StepConserves` | ingestion/services/hunts.go:37-135 | every step keeps persisted + dropped + in flight + pending equal to the increments |
| `HuntStats.RunConserves` | ingestion/services/hunts.go:37-135 | so does every interleaving, for each hunt and counter |
| `HuntStats.StepTracks` | ingestion/services/hunts.go:147-158 | counts wait only in updaters that are live or about to be flushed |
| `HuntStats.PendingIffStranded` | ingestion/services/hunts.go:69-125 | something waits in an updater exactly when it was counted on after its last flush |
| `HuntStats.DeliveredExactly` | ingestion/services/hunts.go:37-135 | once no flush is under way, every increment is persisted if and only if no failed flush dropped any and none was made on an updater of the hunt after that updater's last flush |
| `HuntStats.AllDelivered` | ingestion/services/hunts.go:147-158 | when look-up and increment are one step and all updaters have expired and been flushed, if and only if no flush dropped any |
| `HuntStats.ShutdownExactly` | ingestion/services/hunts.go:160-169 | whatever is purged and flushed after the context has ended, all is persisted if and only if it had been by then and nothing was counted since |
| `HuntStats.PurgeLoses` | ingestion/services/hunts.go:150-168 | the purge at shutdown drops what still waits |
| `HuntStats.LateIncrementLost` | ingestion/services/hunts.go:37-51 | a count on an updater looked up before it was flushed is lost |
| `HuntStats.OrphanLost` | ingestion/services/hunts.go:39-48 | two look-ups that both miss leave an updater that nothing flushes |

## Left out

- OpenSearch, S3 and HTTP clients, retries, encryption, configuration, command line and GUI: foreign or wiring.
- `ResultSetProtocol.FailedFlushUnreadable`: the failures end at some point, as a write that fails for ever recurses for ever; histories of sessions do not contain failing writes, nor does their metadata fail to be written.
- `ResultSetObjects.ResultSetReader.JSON`: the position after a cancelled context is not specified.
- `SetStartRow` and out-of-order chunks: the end row follows the last arrival, so completeness holds only for chunks in order.
- The sorted table path and row ranges of filtered tables: they rest on code outside the repository; filters are modelled with `StartIdx` and `EndIdx` 0.
- Legacy result sets with packets but no metadata: histories start from an empty path.
- `FilterCache.FilteredReadAgrees`: a build is one step between base writes; `FilterRaces.InterleavedExact` takes a build apart, with base writes in between, and `FilterRaces.ReadDuringBuild` with a read that finds the base unchanged. Two builds of one filter at the same time are not modelled.
- `FilterCache.ReadStepKeeps`: no read begins during a build of the same filter; `FilterRaces.ReadDuringBuild` says what happens then.
- `FilterRaces.InterleavedExact`: nobody else builds the same filter meanwhile.
- `FilterCache.GetFilteredReader`: ranges and sorting are not modelled, and the base rows are read before the cache is written, which `FilterCache.BaseReadUndisturbed` shows to make no difference.
- `FilterCache.CachePathInjective`: the range component of the path is not modelled.
- `FilterCache.FeedWriter`: rows, which come from parsed JSON, always serialise.
- `Hunts.GetMinimalClientInfo`: reads the client's documents in index order and does not model the label and event table timestamps it also merges.
- `Foreman.Plan.AssignClientToHunt`: the map of client records, which nothing here reads, is not modelled.
- `Sweeps.RunSweep`: clients do not change during a sweep; stopping expired hunts and choosing organisations are not modelled, the active hunts are given.
- `Rounds.Service.RunOnce`: client queries are answered at one moment; a backlog client whose record cannot be read is not skipped on its own.
- `Rounds.AtMostOnce`: assignments are visible before the next sweep, and queries for one client return all its documents (`Paging.OneKeyOnePage` says when they do).
- `Monitoring.GetClientUpdateEventTableMessage`: the message's version number, which is a clock reading, is not modelled.
- `Uploads.Uploader.Put`: failing HTTP requests are not modelled; hashes are not modelled, and no code reads the commit flag.
- `Uploads.Uploader.UpdateServerStat`: file times and a cancelled context, which drops the message, are not modelled.
- `Uploads.Uploader.Close`: a failing commit, which sends no EOF, is not modelled.
- `SparseUploads.CopyRanges`: seeking succeeds.
- `FlowIndex.BuildIndex`: `UpdateFlowStats` and the summary columns are not modelled; `Status` and fields such as `StartTime`, which the index does not carry over, are outside the agreement.
- `Paging.QueryChan`: only the ascending order; later pages are always requested ascending. Failing queries, and a last row without the sort field, which ends the scan, are not modelled.
- `Labels.LabelStore.SetClientLabel`: lower case is that of ASCII, which covers every accepted label.
- `Vfs.PanelsAgree`: assumes well-formed listing and download records with distinct timestamps, as the ingestor writes them.
- `HuntStats.ShutdownExactly`: a request made with a finished context fails, and the purge calls the expiry callback, as the cache library and the HTTP client are taken to do.
- Exclusive leasing of scheduler jobs, client metadata, user and organisation caches, and index freshness with deliberate staleness: not decided by this code, or only easy members.
