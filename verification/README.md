# Verified model of the log agent's delivery path

The agent tails files, gathers lines into batches, sends them, records which
byte ranges were acknowledged, and retries what was not. This project models
that path in Dafny and proves what it keeps, over every input, run and
interleaving. Where the code does not keep what one would expect of it, the
model follows the code, and a lemma gives the exact condition, or an input, or
both.

`dafny verify dfyconfig.toml` checks everything.

| file | what it models |
|---|---|
| `Spans.dfy`, `SpanVec.dfy` | sets of byte ranges; the windowed, coalescing, in-place insertion |
| `Codec.dfy` | the byte form of a file's ranges |
| `OffsetActor.dfy`, `OffsetRuns.dfy` | the actor that owns the acknowledged ranges, and its runs |
| `Resume.dfy`, `Restart.dfy` | gaps, retried lines, restart and resumption |
| `SendProtocol.dfy` | senders, actor queue, quota counter and retry directory as interleaved steps |
| `SendFrames.dfy`, `SendQuota.dfy`, `SendDelivery.dfy` | what every interleaving keeps |
| `SendAcks.dfy` | what is answered gets persisted |
| `SendLimits.dfy` | the environments in which the counter and the delivery can be relied on |
| `EventDebouncer.dfy`, `DelayedStream.dfy` | the two event queues |
| `LineRules.dfy` | redaction |
| `BatchStream.dfy` | batches by size and time |
| `RetryBuckets.dfy` | the retry buckets of a tailed file |
| `CommaList.dfy` | comma-separated configuration lists |

## Reading the model

- Spans are closed ranges: `[s, e]` covers `s..=e`, because the code merges at
  `end + 1 >= start`. Each in-place algorithm is a method proved equal to a
  function written in another way (for insertion a closed form without windows
  or loop), and the properties are proved about the function.
- The send protocol is a state machine: each await point and each atomic
  operation of `send`, `retry` and the reader of the retry directory is one
  step, and the steps of any number of senders, of the actor, of the reader and
  of the control events interleave freely. `Books` and
  `Ledger` are bookkeeping that no step reads, but for the bytes written so far.
  The counter is a 64-bit word; sums with it and differences wrap, as in a
  release build.
- `Option` results stand for panics where a row says so (`LineRules`,
  `Malformed` in `Codec`).

## What the code does not keep

- `insert` can leave a span touching the one before it or inside it, and
  `InsertedCanonical` says exactly when. A row with a span inside another cannot
  be decoded, and then no file is restored (`ReloadCanFail`); sizing the first
  gap wraps (`GapSizeCanWrap`).
- The decoder advances by one word, not two, so a reloaded row is the hull of
  the file's spans; bytes that were never acknowledged are skipped after a
  restart unless the spans, one or several, leave no gap from 0 on
  (`RestartSkipsOnlyAcknowledged`).
- A retried line of one byte is never read again, and the last line is read
  from one byte too early (`RetryReopensLine`). The size of the gap to read is
  reduced by its start twice (`TargetReadExact`).
- `redact` slices backwards and panics exactly when a match bridges two groups
  (`RedactSucceeds`, `BridgingPanics`).
- If the size of a leftover file, or of a file just written, cannot be read, the
  64-bit quota counter can wrap below zero when that file is read back, and only
  then (`UnderflowsExactly`). It is then past the limit (`PastLimitExactly`), and
  later batches are given up although the directory is empty (`AfterWrap`,
  `LoadGrantsExactly`).
- If the size cannot be read at removal, or a rename fails, the counter stays too
  high as long as the process lives (`TooHighForEver`); `TooHighExactly` says in
  which environments that never happens.
- Committing or retrying a line that lies beyond a bucket's only span makes the
  bytes between them pending (`CommitInventsExactly`, `RetryInventsExactly`).
- Removing a line from a bucket's only span can leave the line before it, which
  shares an end with it, in no single span; then its retries are forgotten
  (`NeighboursKept`, `CommitForgetsCount`).
- A deleted file keeps its row, and so comes back after a restart, if a clear, a
  collection or a failed write drops the staged delete; collecting a file removes
  no row at all (`RowGoneExactly`).
- A line that cannot be serialised, or a body that cannot be closed, takes the
  whole body with it, earlier lines included (`DeliveredExactly`).
- A sixth retry is counted unless the driver's guard, or one as good, forbids it
  (`RetriedCountedExactly`).

## Model

| member | source | states |
|---|---|---|
| Spans.MergeMeans | common/state/src/span.rs:94-120 | Two spans merge exactly when no offset lies strictly between them, and then into exactly their union |
| Spans.InsertedCovers | common/state/src/span.rs:329-447 | Inserting a span is set union of the covered offsets, for every vector, sorted or not |
| Spans.InsertedStarts | common/state/src/span.rs:329-447 | Insertion keeps the starts strictly increasing |
| Spans.InsertedCanonical | common/state/src/span.rs:349-447 | On a gap-separated vector insertion leaves a gap-separated one if and only if the new span touches its left neighbour, has at most one span after it, or ends more than one before the second span after it |
| Spans.InsertCanLoseGaps | common/state/src/span.rs:359-370 | A reachable vector, `[(5,6),(10,11)]`, on which inserting `(0,end)`, for every `end` from 9 on, leaves `(10,11)` as a second span that touches the first one or lies inside it |
| Spans.CanonicalUnique | common/state/src/span.rs:329-447 | Gap-separated vectors that cover the same offsets are equal |
| Spans.InsertedAllCovers | common/state/src/span.rs:461-477 | Building a vector from any list of spans covers exactly their union |
| Spans.InsertedAllStarts | common/state/src/span.rs:461-477 | Any sequence of insertions keeps the starts strictly increasing |
| Spans.OrderIrrelevant | common/state/src/span.rs:461-477 | Two orders of insertion that keep the gaps at every step, of lists covering the same offsets, end in the same vector |
| SpanVecs.SpanVec.MergeInSpan | common/state/src/span.rs:351-435 | One look at a window moves the vector towards the specified result, and every look after the first stops the loop or shortens the vector |
| SpanVecs.SpanVec.CoalesceAt | common/state/src/span.rs:372-430 | The three-span window; the two branches for duplicated spans are shown unreachable |
| SpanVecs.SpanVec.Insert | common/state/src/span.rs:329-447 | The in-place loop terminates and produces the vector of the closed form, on every vector with increasing starts |
| SpanVecs.InsertSpans | common/state/src/span.rs:461-477 | Inserting one span after the other produces the specified vector |
| SpanVecs.SpanVec.Remove | common/state/src/span.rs:246-327 | What removal makes of a vector of at most one span, for every argument, overlapping or not |
| RetryBuckets.ContainsExact | common/state/src/span.rs:449-456 | On gap-separated vectors `contains` holds exactly when every offset of the span is covered |
| Codec.WordRoundTrip | common/state/src/state.rs:198-200 | Writing a 64-bit word as eight big-endian bytes and reading it back is the identity |
| Codec.EncodeRow | common/state/src/state.rs:324-335 | The encoding loop writes the first end and then every start and end |
| Codec.DecodeRow | common/state/src/state.rs:175-205 | The decoding loop computes what the one-word-at-a-time reading specifies, for every row, with its error cases |
| Codec.OneWordRow | common/state/src/state.rs:178-187 | A row of one word stands for everything from 0 up to that word |
| Codec.RoundTripIsHull | common/state/src/state.rs:175-205 | Encoding and decoding a vector gives the one span from its first start to its last end if no span starts before the previous one ends, and an error otherwise |
| Codec.RoundTripExact | common/state/src/state.rs:175-205 | On gap-separated vectors the round trip is the identity exactly for single spans |
| OffsetMaps.AddSpanCovers | common/state/src/offsets.rs:34-46 | Adding a span to an offset map adds its offsets to its own file and to no other |
| OffsetMaps.OffsetMap.Insert | common/state/src/offsets.rs:34-46 | The in-place insertion, and its refusal when the map is shared |
| OffsetActor.Actor.HandleFlush | common/state/src/state.rs:297-346 | A flush merges the staged batch, keeps the files with spans, extends the write batch with exactly their rows and leaves the scratch map empty |
| OffsetActor.Actor.MergeStaged | common/state/src/state.rs:310-323 | The merge loop moves every file of the batch into the scratch map with the new spans inserted |
| OffsetActor.Actor.DrainSpanBuf | common/state/src/state.rs:324-340 | The drain loop writes one row for each file with spans and puts the file back |
| OffsetActor.Actor.Handle | common/state/src/state.rs:233-284 | One step of the fold, over all events and all outcomes of the column-family lookup and of the write, equals the specified step |
| OffsetActor.StepKeepsInv | common/state/src/state.rs:348-402 | Between events every file in memory has spans with increasing starts, staged deletes never concern a file in memory, and pending keys are older than the next one |
| OffsetRuns.MemoryIsUnionOfFlushes | common/state/src/state.rs:233-402 | In every run an offset is covered in memory exactly when a batch carrying it was flushed and the file has not been deleted or collected since |
| OffsetRuns.RowIsCurrent | common/state/src/state.rs:258-266 | While a file is in memory its database row is the encoding of its spans, if the write of its last flush succeeded, whatever else failed |
| OffsetRuns.LastFlushExists | common/state/src/state.rs:310-341 | Every file in memory has such a last flush |
| OffsetRuns.RowGoneExactly | common/state/src/state.rs:373-402 | The row of a file that is not flushed any more goes if and only if a delete of the file is followed by a flush whose write succeeds, with no other flush, no clear and no collection between them; collecting a file removes no row |
| OffsetRuns.KeyStandsForItsBatch | common/state/src/state.rs:361-371 | A key stands for a batch exactly when that batch was staged under it and has been neither flushed, cleared nor collected |
| OffsetRuns.StaleFlushPersistsNothing | common/state/src/state.rs:297-346 | Flushing no key, or a stale one, changes no memory and writes no row |
| Resume.FirstGapIsFirst | common/state/src/span.rs:204-217 | On a gap-separated vector the first gap is the first uncovered stretch, and its size does not underflow |
| Resume.GapSizeSafe | common/fs/src/cache/tailed_file.rs:826-836 | The subtraction that sizes the gap is safe exactly when the first span, if it starts at 0, ends before the second one starts |
| Resume.GapSizeCanWrap | common/fs/src/cache/tailed_file.rs:826-836 | A vector reachable by three insertions for which that subtraction wraps |
| Resume.RetryReopensLine | common/fs/src/cache/tailed_file.rs:804-836 | With offsets `[(0,n)]`, a retried line is read again from its start if and only if it is the first line, or is two bytes or longer and not the last one; what happens in the other cases |
| Resume.RetryCloses | common/fs/src/cache/tailed_file.rs:973-975 | Reading the retried line again restores `[(0,n)]`, for every line |
| SpanVecs.RemovedOneMeans | common/state/src/span.rs:246-327 | Exactly which offsets removal from one span leaves: all outside the removed span, none strictly inside it, and its ends as stated; it adds offsets if and only if the removed span starts more than one past the end of the only span |
| Resume.TargetReadExact | common/fs/src/cache/tailed_file.rs:735-752 | The reader is told the size of a closed gap exactly when the gap starts at 0, because the start is subtracted twice; and when the second subtraction wraps |
| Resume.ResumesAtLastEnd | common/fs/src/cache/mod.rs:884-953 | After persist, reload and look-up reading resumes at the last end if the file is long enough, and at the look-back default otherwise |
| Resume.DefaultExactly | common/fs/src/cache/mod.rs:902-941 | For each look-back policy, length and creation time: whether a file without usable offsets is read from 0 or from its present end |
| Resume.SeveralSavedSpans | common/fs/src/cache/mod.rs:943-953 | Several saved spans are used as they are if the file reaches the end of the first, and the look-back default otherwise |
| Resume.FirstUncoveredMeans | common/state/src/span.rs:204-217 | On any vector with increasing starts a scan that keeps the furthest end finds the first uncovered offset |
| Resume.ResumeSkipsNothing | common/fs/src/cache/mod.rs:884-953 | On every vector whose row decodes, everything up to the resume point is covered if and only if the spans start at 0 and each starts no later than one past the end of the one before it |
| Resume.UnbrokenByTwo | common/state/src/span.rs:359-370 | A reachable vector of two spans for which that holds |
| Resume.ReloadAllOrNothing | common/state/src/state.rs:166-208 | The offsets of all files are restored as their outer ends if every row decodes, and none otherwise |
| Restart.RestartResumes | common/fs/src/cache/mod.rs:943-953 | Over any run and a restart, for a file whose row is current: the offsets are the one span up to the last acknowledged end if every row of the database decodes and the file is long enough, and the look-back default otherwise |
| Restart.RestartSkipsOnlyAcknowledged | common/fs/src/cache/mod.rs:943-953 | Wherever reading resumes, nothing unacknowledged is skipped if and only if that is no later than the first offset the file's spans leave uncovered; where the row decides, if and only if the spans leave no gap from 0 on; where the default does, reading resumes at 0 or at the end of the file |
| Restart.ReloadCanFail | common/state/src/state.rs:193-203 | Three acknowledged lines whose row fails to decode, so that no file is restored |
| SendQuota.CounterIsExact | common/http/src/retry.rs:174-194 | Under every interleaving and every failure the counter is, modulo 2^64, the size of the visible files plus reserved, plus removed and not yet subtracted, plus what failed renames leak and what unreadable removals leave on it, less the bytes it was never charged for; where the sizes of leftover and newly written files can be read there are no such bytes and it has not wrapped |
| SendQuota.NothingLeaks | common/http/src/retry.rs:368-374 | Without file errors nothing leaks |
| SendQuota.ExcessStays | common/http/src/retry.rs:174-194 | What failed renames and unreadable removals leave on the counter is never taken off again |
| SendQuota.TooHighForEver | common/http/src/retry.rs:174-194 | So a counter that has not wrapped stays too high by at least as much as it ever was |
| SendQuota.NetIsBounded | common/http/src/retry.rs:330-364 | With a limit, what was added to the counter less what was subtracted never exceeds the larger of its start and the limit, whatever fails |
| SendQuota.LoadGrantsExactly | common/http/src/retry.rs:336-346 | What the check against the limit grants, for every counter: a counter wrapped below zero by some bytes refuses smaller charges, unless the limit is as near to 2^64, and grants larger ones as if it were negative |
| SendLimits.PastLimitExactly | common/http/src/retry.rs:330-364 | No run of a configuration with a limit takes the 64-bit counter past the larger of its start and the limit if and only if the sizes of leftover files and of files just written can be read, or the limit is the largest word |
| SendQuota.VisibleFilesBounded | common/http/src/retry.rs:330-364 | So the files in the retry directory exceed that by no more than the uncharged bytes, which are 0 if sizes can be read at the start and after writing |
| SendLimits.UnderflowsExactly | common/http/src/retry.rs:174-194 | No run of a configuration subtracts more than is on the counter, and in no run does the counter stand for less than is there, if and only if the sizes of leftover files and of files just written can be read, whatever the limit |
| SendLimits.AfterWrap | common/http/src/retry.rs:174-194 | A run after which the directory is empty, nothing is reserved, and the counter is any number of bytes short of 2^64 |
| SendLimits.TooHighExactly | common/http/src/retry.rs:174-194 | In no run of a configuration does the counter stand for more than is there if and only if all sizes can be read and either no rename fails or the limit is 0 |
| SendDelivery.BatchHasOnePlace | common/http/src/client.rs:93-133 | From its submission on a batch is in exactly one place: with a sender, answered, in the retry directory, with its reader, or given up |
| SendDelivery.LeftoverHasOnePlace | common/http/src/retry.rs:249-267 | The same for the batches of files left by an earlier run |
| SendDelivery.NothingDropped | common/http/src/client.rs:93-133 | Without a limit, file errors and final refusals no batch is ever given up |
| SendLimits.DropsExactly | common/http/src/retry.rs:330-364 | No run of a configuration gives a batch up if and only if there is no limit and neither files nor requests fail for good; with the largest limit a batch is still given up when others are faster eleven times in a row |
| SendDelivery.KeysRightStep | common/http/src/client.rs:79-92 | Every step keeps keys with their batches: those that senders hold, and those of queued flushes, whose batches were answered |
| SendDelivery.PersistedIsAnswered | common/http/src/client.rs:69-135 | In every reachable state each database row is left over from before or encodes only offsets of batches answered `Sent` |
| SendAcks.OffsetsAreStaged | common/http/src/client.rs:79-92 | In a client with offset handles a sender with offsets has its update queued while it waits for its key, and sends only after the actor has taken the update, with the key it was given for it |
| SendAcks.QueueIsFifo | common/http/src/client.rs:79-131 | The actor takes every update, flush and control event that was sent, once each, in the order of sending |
| SendAcks.ActorRuns | common/state/src/state.rs:233-284 | Within the protocol the actor performs one of its own runs, so all that is proved of those holds of it |
| SendAcks.RunKeys | common/state/src/state.rs:361-371 | In every reachable state a key is with at most one sender or in at most one queued flush |
| SendAcks.FlushPersists | common/state/src/state.rs:297-346 | When the actor takes the flush of a key, every offset staged under it is in memory afterwards and, if the write goes through, every file's row encodes its memory, provided no clear or collection was acted on since staging |
| SendAcks.AnsweredIsPersisted | common/http/src/client.rs:125-131 | Once a sender with staged offsets was answered and has requested its flush, the flush of its key is queued until the actor takes it, and then its offsets are persisted in that sense |
| SendAcks.AnsweredFirst | common/http/src/client.rs:93-133 | No sender, not even one that was handed a batch from the retry directory, spills it or is done with it before its own request was answered accordingly |
| EventDebouncer.BackIsEnqueue | common/fs/src/cache/event_debouncer.rs:108-129 | Updating from the back is enqueueing, with a Write absorbed by a Write before it |
| EventDebouncer.FrontIsRequeue | common/fs/src/cache/event_debouncer.rs:131-145 | Updating from the front is putting back at the head, with the same absorption |
| EventDebouncer.CoalescingKeepsWritesApart | common/fs/src/cache/event_debouncer.rs:108-145 | No queue ever gets two neighbouring Writes |
| EventDebouncer.PrioritisedEventQueue.InsertEvent | common/fs/src/cache/event_debouncer.rs:33-52 | Only the event's own path changes, by enqueueing; its priority can only rise; arrivals in time order keep every priority at its head's time |
| EventDebouncer.PrioritisedEventQueue.RequeueEvent | common/fs/src/cache/event_debouncer.rs:55-74 | Only the event's own path changes, by requeueing, and its priority can only rise |
| EventDebouncer.PrioritisedEventQueue.Pop | common/fs/src/cache/event_debouncer.rs:81-90 | Nothing is popped only when all queues are empty; otherwise the head of a path of best priority, and, when events arrived in time order, the globally oldest event |
| EventDebouncer.DeliveredInOrder | common/fs/src/cache/event_debouncer.rs:94-153 | Over any run of arrivals, put-back Writes and takes on a path, every event that is not a Write comes out once and in arrival order |
| EventDebouncer.WriteStaysPending | common/fs/src/cache/event_debouncer.rs:108-153 | Over any run on a path, at any time after a Write arrived or was put back, a Write no younger than it is queued or has been handed out since |
| EventDebouncer.WriteKeepsItsPlace | common/fs/src/cache/event_debouncer.rs:108-153 | Over any run on a path a Write, or an older one that absorbed it, comes out after exactly those other events that were ahead of it when it arrived or was put back, so it is absorbed only by a neighbour |
| DelayedStream.DrainReady | common/fs/src/cache/delayed_stream.rs:126-136 | Draining splits the heap into the events whose deadline has passed, in deadline order, and the others |
| DelayedStream.Stream.Next | common/fs/src/cache/delayed_stream.rs:118-181 | One pull performs a run that hands out what it returns and takes in what arrived in the turns it used |
| DelayedStream.Stream.PullAll | common/fs/src/cache/delayed_stream.rs:118-181 | Over any number of pulls, with a clock that never runs back, everything handed out is in deadline order, and every event is handed out or still held as often as it was held or taken in; starting empty, what is handed out arrived in an earlier turn and its own delay, or the stream's if it has none, has passed since, and what is still held came with an arrival whose delay had not passed at the last look |
| DelayedStream.TakenInMatch | common/fs/src/cache/delayed_stream.rs:140-156 | What is taken in matches the arrivals one by one, in order: the same item, due its delay after it |
| DelayedStream.NothingLost | common/fs/src/cache/delayed_stream.rs:118-181 | Over any run every event occurs as often in output and heap as it was taken in |
| DelayedStream.OutputInOrder | common/fs/src/cache/delayed_stream.rs:118-181 | With a clock that never runs back the whole output, across batches, is in deadline order and never early |
| LineRules.GroupsCover | common/middleware/src/line_rules.rs:69-109 | For any match lists the groups start one after the other and cover exactly the bytes some match covers |
| LineRules.AddedApart | common/middleware/src/line_rules.rs:72-108 | One more match leaves separated groups separated if and only if it does not reach past the group it joins into the next |
| LineRules.AddedSeparated | common/middleware/src/line_rules.rs:72-108 | One more match leaves groups with a gap between them separated if and only if it does not reach, at its ends included, two neighbouring groups |
| LineRules.GroupsSeparated | common/middleware/src/line_rules.rs:69-109 | For all match lists: touching matches come out as one group, and groups keep a gap between them, if and only if no match, when it is found, reaches two groups |
| LineRules.RedactSucceeds | common/middleware/src/line_rules.rs:111-126 | The replacement loop slices forwards, and so does not panic, if and only if no match, when it is found, bridges two groups |
| LineRules.BridgingPanics | common/middleware/src/line_rules.rs:98-101 | Whenever a third match bridges two separate groups found before it, rendering panics |
| LineRules.AddMatch | common/middleware/src/line_rules.rs:72-108 | The scan with its replace, insert and append endings adds the match as specified |
| LineRules.GroupMatches | common/middleware/src/line_rules.rs:69-109 | The nested loops over patterns and matches build the specified groups |
| LineRules.Redact | common/middleware/src/line_rules.rs:64-134 | The line is the specified rendering, and exists exactly when no match bridges |
| LineRules.RenderKeeps | common/middleware/src/line_rules.rs:116-126 | Every byte outside the groups is in the output, at the place its preceding groups shift it to |
| LineRules.RenderMarks | common/middleware/src/line_rules.rs:116-126 | Every group has its mark in the output, at its place |
| LineRules.MarkReads | common/middleware/src/line_rules.rs:7-7 | The mark reads [REDACTED] |
| LineRules.RenderLength | common/middleware/src/line_rules.rs:116-126 | The output holds nothing else |
| LineRules.RenderHides | common/middleware/src/line_rules.rs:116-126 | Bytes inside the groups have no influence on the output |
| BatchStream.Batcher.Next | common/http/src/batch.rs:126-201 | One pull returns the lines it takes from the stream in order, with their offsets, closed by capacity reached with the last line, by the first timeout that follows a line, or by the end; or gives them up because the last line could not be written or the body not closed; or nothing when the stream holds no more lines |
| BatchStream.OffsetsExact | common/http/src/batch.rs:148-150 | The offsets of a batch are for each file exactly those of its own lines |
| BatchStream.BatchesConcatenate | common/http/src/batch.rs:126-201 | The lines of all bodies, handed out or given up, concatenated, are the lines of the stream, once each and in order |
| BatchStream.DeliveredExactly | common/http/src/batch.rs:153-174 | The lines of the bodies handed out are all lines if and only if every line can be written and every body closed |
| BatchStream.Drain | common/http/src/batch.rs:126-201 | Pulling until the end puts every line into one body, none of them empty, of which only the last may have been closed by the end, and delivers all lines exactly on that condition |
| RetryBuckets.CoalesceBuckets | common/fs/src/cache/tailed_file.rs:637-657 | Marking from the last bucket to the first and removing the marked indices keeps exactly the unmarked buckets |
| RetryBuckets.ErasedFits | common/fs/src/cache/tailed_file.rs:655-657 | Removing strictly falling indices one by one stays in bounds and removes one bucket each |
| RetryBuckets.PassKeepsPending | common/fs/src/cache/tailed_file.rs:640-657 | Coalescing the buckets loses no pending offset and invents none |
| RetryBuckets.NoneRedundant | common/fs/src/cache/tailed_file.rs:640-657 | No bucket of the file that is kept could be dropped: each has a span that no single span of the later ones holds |
| RetryBuckets.DroppedIsHeld | common/fs/src/cache/tailed_file.rs:640-657 | Every span of every bucket of the file is held by a single span of what is kept |
| RetryBuckets.RetriedCounted | common/fs/src/cache/tailed_file.rs:574-635 | While retries remain, a retry leaves every bucket with the current inode and a count from 1 to 5 |
| RetryBuckets.RetriedPending | common/fs/src/cache/tailed_file.rs:574-657 | After a retry every byte of the line is pending |
| RetryBuckets.RetriedPendingExactly | common/fs/src/cache/tailed_file.rs:574-657 | After a retry exactly the bytes of the line and what the lapsed buckets still hold are pending |
| RetryBuckets.RetryLosesNothing | common/fs/src/cache/tailed_file.rs:586-604 | A retry loses no pending byte, if removal keeps what lies outside the line |
| RetryBuckets.RetryInventsExactly | common/fs/src/cache/tailed_file.rs:600-602 | With buckets of at most one span, a retry makes bytes outside the line pending if and only if some lie between the span of a due, untried bucket and the line beyond it |
| RetryBuckets.CommitLosesNothing | common/fs/src/cache/tailed_file.rs:672-703 | A commit keeps every pending byte outside the line, if removal does |
| RetryBuckets.CommitInventsExactly | common/fs/src/cache/tailed_file.rs:692-692 | With buckets of at most one span, after a commit nothing inside the line is pending, and bytes become pending that were not if and only if some lie between the span of a bucket of the file and the line beyond it |
| RetryBuckets.CommitBeyondOneBucket | common/fs/src/cache/tailed_file.rs:692-692 | For a single bucket that is so exactly when the line starts more than one past the end of its span |
| RetryBuckets.RemovalKeepsLine | common/fs/src/cache/tailed_file.rs:600-602 | Which other lines of a bucket's only span are still held by one span after a line is removed, exactly |
| RetryBuckets.NeighboursKept | common/fs/src/cache/tailed_file.rs:969-975 | Of two lines that share an end, removing the earlier one keeps the later; removing the later one keeps the earlier if and only if the span goes on behind it |
| RetryBuckets.CommitKeepsCount | common/fs/src/cache/tailed_file.rs:550-564 | A bucket that a commit keeps counts the retries of every other line kept in that sense |
| RetryBuckets.CommitForgetsCount | common/fs/src/cache/tailed_file.rs:550-564 | For a single bucket, after a commit another line has its count if it is kept in that sense and 0 otherwise |
| RetryBuckets.RetriedCountedExactly | common/fs/src/cache/tailed_file.rs:600-635 | A retry keeps the counts in range if and only if the due buckets that hold the line have been retried fewer than five times |
| RetryBuckets.DueRetriesIsLargest | common/fs/src/cache/tailed_file.rs:595-597 | The count that a retry starts from is the largest among the due buckets that hold the line, and 0 if there are none |
| RetryBuckets.MostRetriesIsLargest | common/fs/src/cache/tailed_file.rs:557-562 | The count that the driver asks for is the largest among the buckets of the file that hold the line, and 0 if there are none |
| RetryBuckets.RetryCountsOneMore | common/fs/src/cache/tailed_file.rs:595-635 | After a retry a bucket holds the line with exactly one retry more than that, and none with more unless one had more already, provided the bucket that takes the line is its own or holds something that no later one does |
| RetryBuckets.RetriesCountDown | common/fs/src/cache/tailed_file.rs:550-635 | A line retried again and again, due each time, has been retried exactly as often as that, so that none of the five retries remain after the fifth |
| RetryBuckets.SharesBucket | common/fs/src/cache/tailed_file.rs:617-635 | A line joins a bucket if and only if it has the same count and a time less than 250 ms away |
| RetryBuckets.SettledMeans | common/fs/src/cache/tailed_file.rs:585-591 | A retry event is sent if and only if the last due bucket, if any, has tried exactly its spans |
| RetryBuckets.InsertedContains | common/state/src/span.rs:329-447 | What one span of a vector held, one span still holds after an insertion |
| RetryBuckets.OpenedTwice | common/fs/src/cache/tailed_file.rs:804-817 | A due bucket opens the gap of each span once: doing it again changes neither tried spans nor offsets |
| RetryBuckets.GapsOpenOnce | common/fs/src/cache/tailed_file.rs:795-823 | If no retried line lies beyond the end of the file, a second pass of the loop over all buckets changes neither buckets nor offsets |
| RetryBuckets.ShortGapsOpenOnce | common/fs/src/cache/tailed_file.rs:795-823 | With buckets of at most one span, a second pass never changes the offsets, wherever the retried lines lie |
| RetryBuckets.OpenedAllKeeps | common/fs/src/cache/tailed_file.rs:795-823 | The loop keeps what is not due as it is, no due bucket of another file, and every due one of this file that is not empty, with its spans tried |
| RetryBuckets.BeyondEndExactly | common/fs/src/cache/tailed_file.rs:807-811 | The spans to be forgotten are exactly those that start beyond the end of the file |
| RetryBuckets.LineForgottenExactly | common/fs/src/cache/tailed_file.rs:807-819 | The only line of a due bucket is forgotten exactly if it starts beyond the end of the file |
| RetryBuckets.RetriedLineIsReadAgain | common/fs/src/cache/tailed_file.rs:804-836 | A retried line in a due bucket makes reading go back to its start if and only if it is the first line, or is two bytes or longer and not the last one |
| RetryBuckets.TailedFile.RetriesRemaining | common/fs/src/cache/tailed_file.rs:550-564 | The difference from five is computed without underflow |
| RetryBuckets.TailedFile.Retry | common/fs/src/cache/tailed_file.rs:574-670 | For every line, retries left or not, the three loops of a retry compute the specified buckets, keep the counts in range exactly when due buckets with the line are below the limit, leave the line pending, and lose and invent pending bytes only as characterised |
| RetryBuckets.TailedFile.Commit | common/fs/src/cache/tailed_file.rs:672-703 | A commit performs the pass that takes the line out of what it keeps, keeps the counts in range, and loses and invents pending bytes only as characterised |
| RetryBuckets.TailedFile.OpenGaps | common/fs/src/cache/tailed_file.rs:795-823 | The loop over all buckets drops the due ones that are empty or of another file, marks the spans of the others tried, takes each untried one out of the offsets, and forgets the spans beyond the end of the file |
| CommaList.WithCsv | common/config/src/argv.rs:502-542 | The scanning loop terminates and computes the specified tokens |
| CommaList.RoundTrip | common/config/src/argv.rs:502-558 | Printing a list with escaped commas and reading it back gives the list if and only if it is one item without commas, or all items are non-empty and trimmed and all but the last end neither in a comma nor in a backslash |
| CommaList.TokensAreTrimmed | common/config/src/argv.rs:502-550 | A printed list whose last item is not empty and whose others end neither in a comma nor in a backslash reads back as its items, trimmed, whatever spaces surround them |
| CommaList.TrimMeans | common/config/src/argv.rs:544-550 | Trimming takes off all the spaces at both ends and nothing else |
| CommaList.SpacesAre | common/config/src/argv.rs:544-550 | Which ASCII characters trimming takes for spaces |
| CommaList.AtMostOneTokenEach | common/config/src/argv.rs:515-539 | A printed list never reads back as more tokens than it has items |
| CommaList.CombineParts | common/config/src/argv.rs:544-550 | Putting the escaped part and the token together gives the item back exactly when the item has no space at its ends |

## Left out

- Span ends of 2^64-1: the successor of that end is not a u64, so spans end below it; no byte offset gets there.
- SpanVecs.SpanVec.Remove: only vectors of at most one span, because on longer ones the search predicate is not monotone and the drained indices are relative to a sub-slice. `RetryBuckets` is therefore parameterised by what removal does there, and fixed to `Remove` on vectors of at most one span.
- SpanVecs.SpanVec.Insert: only vectors with increasing starts, which every sequence of insertions gives; on other vectors the binary search for the position has no specified result.
- RetryBuckets.TailedFile.Retry: the insertion into one bucket uses the closed form, since after an unspecified removal the order of the bucket's spans is not known; sending the retry event, and rounding its time, are not modelled.
- RetryBuckets.CommitInventsExactly: only buckets of at most one span, since on longer ones removal has no specified result; `CommitLosesNothing` holds for all.
- RetryBuckets.RetryInventsExactly: likewise; `RetryLosesNothing` holds for all.
- SendQuota.CounterIsExact: fewer than 2^64 bytes are ever written to retry files, leftovers included, so the counter wraps below zero only.
- LineRules.Redact: the lists of matches are inputs; the regular expressions themselves are not modelled.
- BatchStream.Batcher.Next: the size of a serialised body, and whether it can be closed, are arbitrary functions of its lines, and serialisation succeeds or fails for each line. A failure to get an empty buffer takes no line and is not modelled.
- CommaList.WithCsv: ASCII strings only; on others the code mixes byte and character positions.
- EventDebouncer.PrioritisedEventQueue.Pop: ties between equal priorities are broken in any way, and timestamps stay below the largest i64, as calendar dates do.
- DelayedStream.Stream.Next: the end of the input is never noticed by the code (the flag for it is never set), and is not modelled.
- OffsetActor.Actor.Handle: the database is keyed by file number; its iterators, column families and repair are not modelled. Slot-map keys are never handed out twice.
- The closing of channels at shutdown, the rate limiter, HTTP, compression and the content of request bodies.
- The compare-and-swap loop of `retry` appears as steps of the protocol, not as a loop of one method, because between its load and its swap other senders move.
- The rest of the file-system cache (watch descriptors, symlinks, renames, rescans): it depends on live queries of the file system.
- Kubernetes leases, leader election and event streams: they depend on the behaviour of an API server.
- `iter_gaps`, `pop_first`, `pop_last`, configuration merging, metadata rules, metrics: they would only add easy members.
