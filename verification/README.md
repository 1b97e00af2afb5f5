# A verified model of the posthog-c native backend

The PostHog C SDK turns calls such as `ph_capture` into JSON batches that a background
sender delivers over HTTP. This project models the parts of its native backend that carry
the promises of the SDK, and proves those promises for every input and every run:

- **Delivery.** A capture becomes a packed record (`Props`, `Events`), enters a
  drop-oldest ring (`Ring`), is popped in batches, scrubbed, serialized (`Serializer`),
  halved under the byte cap, POSTed with retries, and then counted sent, counted failed or
  appended to a spill file of lines (`SpillFile`) that later drains replay. `Sender` is that
  loop, over objects for its parts: `Inbox` (the ring and the captures still to come),
  `Posting` (the transport and the hold) and `SpillStore` (the file); `Delivery` holds the
  vocabulary of its laws. `Sender` is generic in the record type and rests on a small codec
  contract; `Pipeline` shows that the SDK's own serializer, JSON recount and scrub meet it,
  so the laws hold of the whole. The server's hold (`RateLimit`) and capture admission
  (`TokenBucket`) are modelled with their arithmetic. `Flush` is `ph_flush` in every
  interleaving of producers, sender and callers.
- **Feature flags.** `Flags` is the reload protocol: context generations, one queued job,
  one job in flight, the ticket history and the cache, as a class whose methods are the
  sections under the context lock.
- **Formats.** `Utf8`, `JsonText`, `JsonReader`, `JsonRoundTrip` and `JsonCursor` are the
  JSON writer and reader (RFC 8259, with UTF-8 as in section 4 of RFC 3629). `Envelope`
  shows that a batch body is one line that recounts as its events. `Chunked`,
  `ChunkedLoops`, `Http` and `HttpSend` are the response decoders (section 7.1 of RFC 9112). `Crash`
  is the crash record.

Code that loops over buffers or updates state is modelled by methods with loops, arrays and
class fields; each is proved against a function of its input, and the laws are proved about
that function or as invariants of the class. The clock, the disk, allocation and the
transport are an oracle that the sender consults one look at a time (`Delivery.World`), so
a law about the sender holds for every behaviour of theirs. The `before_send` callback may
have a state of its own, so its verdict also depends on which call it is. `Incidents` holds concrete runs
in which a promise is broken.

## What the proofs found

- **A failed rewrite counts events twice.** After a replay settled lines, a failing rewrite
  of the spill file leaves them on disk, to be settled again. Conservation fails exactly when
  the look at the disk that decided some rewrite found it failing and the lines to be removed
  had events in them (`Sender.Sender.ConservationExactly`); it holds without a spill path and
  on a disk that works (`Pipeline.Session`). `Incidents.CountsALineTwice` is a run with one
  event that is booked as two.
- **The final drain can leave events in the ring.** The hold is looked at twice, with two clock
  reads (src/ph_native.c:851 and src/ph_native.c:855). `Sender.Sender.Drain` proves when:
  events are left exactly if there are any when the closing looks begin, the shutdown budget is
  not spent at the first, and the hold, which was on at the look before, is off at the second.
  They are then neither sent nor settled, and are freed uncounted.
  `Incidents.LeavesAnEvent` is such a run, from the start: two captures, a drain whose one
  batch is throttled, the order to stop, the final drain.
- **`ph_flush` does not always wait for a full cycle.** The comment at
  src/ph_native.c:1019-1021 says it does. A drain that is already past its replay when
  `ph_flush` reads the generation releases the caller when it ends.
  `Flush.WholeDrainIffNoneWasOn` gives the exact condition and `Flush.FlushMissesAReplay` a
  run from the start in which it happens. What was pushed before the call is settled in
  either case.
- **A torn tail swallows the next record.** A spill onto a file that does not end in a
  newline runs on from the torn bytes; `SpillFile.SpillMergesTornTail` states it for every
  file. A replay that rewrites the file drops the torn tail; a spill meets it before the
  first replay, or after replays whose read or rewrite failed.
- **A callback that enlarges the properties can lose the groups.** The comment at
  src/ph_native.c:506 says that non-scalar entries are preserved untouched. They survive a
  scrub if and only if there are none, or they fit the slot together with the repacked
  properties (`Events.OthersSurviveIff`); `Events.LargeUpdateLosesAGroup` is a record that
  loses its only group.
- **An unframed response can lose its quota notice.** The POST path stops reading at the first
  byte of a body that has neither a length nor chunks. `HttpSend.StoppingKeeps` proves what an
  early stop keeps in every case, and `HttpSend.UnframedBodyIsCut` is such a response.
- **A NUL byte makes a printed string unreadable**, and nothing else does:
  `JsonReader.StringReadableIffNulFree`.
- **Out-of-order ticks exceed the admission rate.** Ticks are read before the lock is taken;
  `TokenBucket.LateTicksExceedTheRate` exhibits a run, `TokenBucket.AdmissionBound` is the
  bound that does hold, and it is rate times elapsed time when ticks are in order.
- **A Retry-After date more than 24 hours away is not waited out**, by the cap:
  `RateLimit.DateDelayReachesTheDate` is an if-and-only-if.
- **A crash record with an unterminated module name is written but never read back**:
  `Crash.DecodeOfEncode`. The signal handler always terminates its names.
- **The answer "full" of an asynchronous reload is unreachable**, and so is the branch that
  discards a stale queued job: `Flags.Store.ReloadAsync`, `Flags.Store.Schedule`.

## Model

| member | source | states |
|---|---|---|
| `Utf8.AcceptedIsEncoding` | src/ph_json.c:21-41 | whatever the writer's sequence test accepts is the UTF-8 encoding of a Unicode scalar value |
| `Utf8.EncodingIsAccepted` | src/ph_json.c:21-41 | the encoding of every scalar value is accepted, with its length, whatever follows |
| `Utf8.SanitizeIsValid` | src/ph_json.c:43-83 | replacing malformed bytes by U+FFFD gives valid UTF-8, and leaves a string alone exactly when it is valid |
| `Utf8.CheckValid` | src/ph_jsonval.c:99-135 | the reader's validity loop accepts exactly the strings made of sequences the writer's test accepts |
| `JsonText.AppendString` | src/ph_json.c:43-83 | the writer's loop appends the quoted, escaped text and nothing else |
| `JsonText.EscapePrintable` | src/ph_json.c:43-83 | escaped text has no byte below 0x20 |
| `JsonReader.ReadEscaped` | src/ph_jsonval.c:154-243 | reading escaped text from any point gives the sanitized string and leaves what follows the quote |
| `JsonReader.StringRoundTrip` | src/ph_jsonval.c:154-243 | reading back a printed NUL-free string gives it with each malformed byte replaced, hence itself when it is valid UTF-8 |
| `JsonReader.StringReadableIffNulFree` | src/ph_jsonval.c:154-243 | a printed string can be read back if and only if it has no NUL byte |
| `JsonRoundTrip.NumberRoundTrip` | src/ph_jsonval.c:258-315 | every numeral of the JSON grammar is read back whole, and stops where it ends |
| `JsonRoundTrip.RoundTrip` | src/ph_jsonval.c:337-464 | reading a printed document, at any nesting depth allowed, gives its value and leaves what follows |
| `JsonRoundTrip.ParsePrinted` | src/ph_jsonval.c:466-480 | parsing a printed document gives its value and uses up the text |
| `JsonCursor.SkipSpaces` | src/ph_jsonval.c:38-44 | the cursor moves past exactly the leading white space |
| `JsonCursor.ParseHex4` | src/ph_jsonval.c:137-150 | four hexadecimal digits, or refusal |
| `JsonCursor.ParseUnicode` | src/ph_jsonval.c:202-228 | a \u escape, with its surrogate partner, as the grammar reads it |
| `JsonCursor.ParseString` | src/ph_jsonval.c:154-243 | the string loop refuses or accepts as the grammar does, with the same bytes and the same end |
| `JsonCursor.ParseNumber` | src/ph_jsonval.c:258-315 | the number scan takes exactly the longest numeral or refuses |
| `JsonCursor.ParseLiteral` | src/ph_jsonval.c:317-335 | true, false and null |
| `JsonCursor.ParseArray` | src/ph_jsonval.c:337-379 | the array loop agrees with the grammar on acceptance, items and end |
| `JsonCursor.ParseObject` | src/ph_jsonval.c:381-444 | the object loop agrees with the grammar on acceptance, fields in order and end |
| `JsonCursor.ParseValue` | src/ph_jsonval.c:446-464 | dispatch and the depth limit |
| `JsonCursor.ParseText` | src/ph_jsonval.c:466-480 | a document is accepted exactly when the grammar reads it to its end |
| `Props.PackOne` | src/ph_props.c:106-118 | one entry is written whole when it fits and nothing is written otherwise; bytes outside stay |
| `Props.PackProps` | src/ph_props.c:191-225 | the buffer holds the greedily fitting items, in order, and nothing beyond them is touched |
| `Props.UnpackProps` | src/ph_props.c:147-189 | the scalars of the blob in order, up to the item limit |
| `Props.EntriesOfPacked` | src/ph_props.c:129-145 | walking a packed blob, whatever follows it, yields the packed entries first |
| `Props.EntriesOfPrefix` | src/ph_props.c:129-145 | a blob cut anywhere walks as a prefix of its entries |
| `Props.UnpackOfPack` | src/ph_props.c:147-225 | for every property set and buffer size, unpacking the packed blob gives exactly the greedily fitting items in order |
| `Props.RemoveKey` | src/ph_util.c:50-61 | the in-place shift removes every item of the key and keeps the rest in order |
| `Props.ApplyDenylist` | src/ph_util.c:82-85 | what remains are the items whose key is not listed, in order |
| `Events.Preserve` | src/ph_native.c:525-541 | group and raw entries are kept byte for byte, as far as they fit |
| `Events.ScrubOne` | src/ph_native.c:507-574 | one record after the denylist and the callback: vetoed, or rebuilt from what is left |
| `Events.RebuiltOk` | src/ph_native.c:507-574 | a rebuilt record is again a well-formed one |
| `Events.DenylistScrubKeepsTheRest` | src/ph_native.c:507-574 | a denylist-only scrub of an enqueued record keeps every other scalar in order and every group and raw entry byte for byte, and nothing else |
| `Events.OthersSurviveIff` | src/ph_native.c:504-572 | for every record and every property set the callback leaves: the group and raw entries that survive are a prefix of those there were, all of them if and only if there are none or they fit the slot with the repacked properties, none if they do not fit the buffer |
| `Events.LargeUpdateLosesAGroup` | src/ph_native.c:563-570 | a record with one group that a callback's properties push out |
| `Events.MergeProps` | src/ph_util.c:35-48 | the two copying loops compute the merge |
| `Events.MergePrefersExplicit` | src/ph_util.c:35-48 | all explicit properties come first; behind them only unshadowed super properties, none missing unless the set is full |
| `Events.CapturedIsEnqueued` | src/ph_core.c:377-399 | every record that capture builds has the form the scrub law asks for |
| `Events.CaptureRecord` | src/ph_core.c:354-399 | the packing code of a capture, on its fixed buffer: the raw payload if it fits, then the merged properties, then the groups, each greedily; the record has the form the scrub law asks for |
| `Serializer.EmitWalk` | src/ph_serialize.c:141-233 | one walk over the blob appends exactly the members it selects, with commas between them |
| `Serializer.EmitAuto` | src/ph_serialize.c:162-175 | an automatic property is written unless the record already has that key |
| `Serializer.PropertiesText` | src/ph_serialize.c:259-330 | the loops print the properties object of the event |
| `Serializer.EventText` | src/ph_serialize.c:235-333 | the loops print the event's document |
| `Serializer.SerializeBatch` | src/ph_serialize.c:335-346 | the loop over a batch prints the batch document |
| `Serializer.DecimalDenotes` | src/ph_json.c:151-155 | printed integers denote their value |
| `Envelope.CountEvents` | src/ph_native.c:243-252 | the recount of a line is the length of its batch array, or zero |
| `Envelope.BodyCount` | src/ph_native.c:243-252 | the body of n well-formed events recounts as n |
| `Envelope.BodyIsOneLine` | src/ph_serialize.c:335-346 | a body is not empty and has no byte below 0x20, so it is one line of the spill file |
| `Envelope.ExceptionListIsWellFormed` | src/ph_exception_shared.h:65-112 | the raw exception list is well-formed JSON for every kind, message and stack, so a record may carry it |
| `SpillFile.SpillAppends` | src/ph_native.c:310-340 | appending a body and a newline to a terminated file adds one line and its events |
| `SpillFile.SpillMergesTornTail` | src/ph_native.c:310-340 | on any file, the appended line is the torn tail with the body; it is the body alone exactly when the file was terminated |
| `SpillFile.UnlinesInverse` | src/ph_native.c:434-443 | what a rewrite writes reads back as the same lines |
| `SpillFile.EventsInLines` | src/ph_native.c:254-263 | the recount loop totals the complete, non-empty lines |
| `SpillFile.TrimPoint` | src/ph_native.c:291-297 | the cut leaves at most the target, at the first line boundary past it |
| `SpillFile.Trim` | src/ph_native.c:266-308 | cutting drops oldest whole lines only, counts their events, and keeps every whole-line suffix that leaves room to spare |
| `SpillFile.LeftIsSuffix` | src/ph_native.c:266-444 | over any history of drops and appends the lines left are the newest of those at the start and those appended, in order |
| `Ring.WrapIsModulo` | src/ph_queue.c:33-46 | the wrapped index is the remainder |
| `Ring.FatesPartition` | src/ph_queue.c:31-61 | popped and dropped events partition what left the ring |
| `Ring.Ring.Push` | src/ph_queue.c:31-48 | the contents gain the event at the end and, when full, lose and count the oldest |
| `Ring.Ring.PopBatch` | src/ph_queue.c:50-61 | the oldest events leave in push order, up to the limit |
| `Ring.Ring.Conservation` | src/ph_queue.c:31-61 | pushes equal popped plus dropped plus size, in every reachable state |
| `RateLimit.DaysFromCivilIsPlainCount` | src/ph_ratelimit.c:22-31 | the civil-date conversion equals counting years, months and days one by one, for every valid date |
| `RateLimit.DateDelayReachesTheDate` | src/ph_ratelimit.c:83-94 | a date's delay is never shorter than the time left to it, if and only if the date is within 24 hours |
| `RateLimit.HoldBounds` | src/ph_ratelimit.c:9-18 | a hold of w ends between w and the lesser of w + w/8 and 24 hours later |
| `RateLimit.Limiter.Arm` | src/ph_ratelimit.c:9-18 | arming replaces the deadline |
| `RateLimit.Limiter.NoteResponse` | src/ph_ratelimit.c:100-121 | a 429, or a 503 with a delay, blocks sends exactly until the deadline; other responses change nothing |
| `RateLimit.Limiter.RemainingMs` | src/ph_ratelimit.c:127-130 | whole milliseconds left |
| `TokenBucket.AdmissionBound` | src/ph_core.c:205-210 | over every run tokens stay between 0 and burst, and admissions are at most burst plus rate times the sum of forward tick moves |
| `TokenBucket.OrderedAdmissionBound` | src/ph_core.c:294-309 | with ticks in order the bound is burst plus rate times elapsed time |
| `TokenBucket.LateTicksExceedTheRate` | src/ph_core.c:335-345 | a run with a late tick that admits more than that |
| `TokenBucket.Admission.AdmitEvent` | src/ph_core.c:294-309 | one admission moves the bucket as the model does, and admits exactly when a token is there or the event is not limited |
| `Delivery.FatesCover` | src/ph_native.c:671-820 | sent, spilled and failed runs make up the batch |
| `Delivery.HasCrashMeans` | src/ph_native.c:725-729 | the crash mark of a run means that one of its events carries it |
| `Delivery.KeptFrom` | src/ph_native.c:578-595 | whatever a scrub keeps is the scrubbed form of one of the events |
| `Delivery.HandledFrom` | src/ph_native.c:822-826 | whatever the batches left to settle is the scrubbed form of a popped event, or, where batches were lost unscrubbed, that event |
| `Delivery.SettlesBoth` | src/ph_native.c:775-820 | settling the two halves settles the whole, in order |
| `Delivery.RunStepsCompose` | src/ph_native.c:775-820 | the hold discipline of two halves in a row is that of the run |
| `Delivery.DuplicatesIffLost` | src/ph_native.c:434-443 | there are duplicates if and only if some rewrite failed that was to remove events |
| `Delivery.NoNewDuplicates` | src/ph_native.c:434-443 | without a path, or while the disk works, a drain adds none |
| `Posting.Poster.PostAndNote` | src/ph_native.c:60-111 | which attempts reach the transport, which received replies arm the hold, and until when |
| `SpillStore.Store.EnforceCap` | src/ph_native.c:266-308 | room for the new line is made by dropping oldest whole lines, whose events are counted; refused only when the line is too long or the disk fails |
| `SpillStore.Store.Spill` | src/ph_native.c:310-340 | a spill appends one line behind a suffix of the old ones, within the byte limit; it fails only without a path, with an empty or oversize body, or by the disk |
| `Posting.Poster.Attempt` | src/ph_native.c:671-690 | at most max_retries + 1 POSTs, ending early only on delivery, rejection, hold or stop |
| `Sender.Sender.Dispose` | src/ph_native.c:691-715 | the events of one body are booked once: sent exactly on a 2xx, spilled only on a status that may succeed later |
| `Sender.Sender.SendOne` | src/ph_native.c:671-716 | one POST cycle settles its events once, counts as sent exactly what was accepted, and reports the hold |
| `Sender.Sender.AckCrash` | src/ph_crash.c:370-376 | the crash record goes when a path is set and the caller reports its event handed over |
| `Sender.Sender.Book` | src/ph_native.c:691-715 | one run gets one fate, and the crash record goes if and only if, with a path, some run with a crash event in it was ever accepted or appended |
| `Sender.Sender.PersistRun` | src/ph_native.c:721-767 | the run is partitioned in order into consecutive runs, each spilled or lost once, no spilled body over the cap; nothing is sent |
| `Sender.Sender.SendRun` | src/ph_native.c:775-820 | the recursion ends and partitions the run in order into consecutive runs, each sent, spilled or lost once, no body over the cap; a held half stops POSTs |
| `Sender.Sender.ScrubEvents` | src/ph_native.c:578-595 | the kept events, scrubbed and in order; every other one counted as vetoed |
| `Sender.Sender.ReplayLine` | src/ph_native.c:377-415 | one line is kept untried, or settled with its events counted; sent exactly when accepted |
| `Sender.Sender.ReplayLines` | src/ph_native.c:374-425 | the lines settled are a prefix of the complete ones, whatever bytes the file holds, and all of them unless there was a reason to stop |
| `Sender.Sender.Replay` | src/ph_native.c:355-444 | when a replay is tried; a prefix of the lines is settled, all unless there was a reason to stop; the last look decides the rewrite, which leaves exactly the other lines, terminated, or the file as it was; events are duplicated exactly when it fails with events settled |
| `SpillStore.Store.Rewrite` | src/ph_native.c:434-443 | the file is replaced by the kept lines exactly if the next look finds the disk working; events are duplicated exactly if not and the lines to go had events |
| `Sender.Sender.SettleQueued` | src/ph_native.c:637-652 | the ring is emptied without a POST and the books balance |
| `Sender.Sender.SendBatch` | src/ph_native.c:822-826 | a popped batch is vetoed or settled, all of it, in order |
| `Sender.Sender.SendQueued` | src/ph_native.c:842-853 | batches go out until the ring is empty or the hold is on |
| `Sender.Sender.Drain` | src/ph_native.c:831-867 | the books balance, against exactly the captures that landed; while an armed hold does not lapse at most one POST follows the arming response, none if replay did not arm it, none in a drain that starts held; a final drain leaves events in the ring if and only if there were any and the hold ran out between its last looks; no duplicates on a working disk; and if from its start on nothing goes wrong, the ring and the spill file end up empty with nothing lost |
| `Sender.Sender.Run` | src/ph_native.c:905-953 | over every run of drains, everything that landed or was on disk at the start is accounted for; unless a reply asks for a hold every drain takes in a burst and nothing is left; the crash record is gone if and only if, with a path, a run with a crash event was accepted or appended; if from its start on nothing goes wrong, nothing is lost and nothing is left |
| `Sender.Sender.Reconnect` | src/ph_native.c:114-118 | from any reachable state, if nothing goes wrong any more: what is queued or spilled, and every later capture, is sent, but for those vetoed or dropped by a full ring; nothing is lost, on disk or left |
| `Sender.Sender.Conservation` | src/ph_native.c:637-867 | in every reachable state the events that landed and those on disk at the start are queued, dropped, vetoed, sent, failed or on disk, but for the duplicates |
| `Sender.Sender.ConservationExactly` | src/ph_native.c:434-443 | the conservation law fails if and only if some rewrite failed, at the look that decided it, after lines with events had been settled |
| `Sender.Sender.CrashHandedOver` | src/ph_native.c:689-703 | in every reachable state with the crash record gone there is a captured event with the crash mark whose scrubbed form is in a settled run, and the body of that run got a 2xx or was appended |
| `Sender.Sender.SettledInOrder` | src/ph_native.c:637-867 | in every reachable state the settled runs, one behind the other, are the popped batches, scrubbed, in order, each event once and with one fate |
| `Sender.Sender.SettledWasCaptured` | src/ph_native.c:637-867 | every settled event is the scrubbed form of a captured one, or, without a path, a captured one that was lost as it was |
| `Sender.Sender.SpillIsFifo` | src/ph_native.c:266-444 | in every reachable state the file holds whole lines, the newest of those at the start followed by the bodies appended, in order, within its byte limit |
| `Inbox.Inbox.Take` | src/ph_queue.c:50-61 | captures land in order of arrival, and nothing is pushed that did not arrive; then the oldest leave, in order: with those that stay they are the newest that were pushed |
| `Inbox.Inbox.PoppedWasCaptured` | src/ph_queue.c:31-61 | whatever left the ring is one of the captures that landed |
| `Incidents.CountsALineTwice` | src/ph_native.c:434-443 | a run from the start whose first drain books one spilled event as two |
| `Incidents.LeavesAnEvent` | src/ph_native.c:851-861 | a run from the start, through a throttled drain and the order to stop, whose final drain leaves an event in the ring |
| `Pipeline.ScrubRecord` | src/ph_native.c:578-595 | the loop body over one record: skip, denylist only, or denylist and callback |
| `Pipeline.ScrubKeepsFit` | src/ph_native.c:507-595 | a scrubbed record is well formed and keeps its crash mark, whatever the callback returns |
| `Pipeline.SdkCodecOk` | src/ph_native.c:243-263 | the SDK's serializer, recount and scrub meet the contract the sender's laws rest on |
| `Pipeline.Session` | src/ph_native.c:905-953 | a whole session conserves events: those of the bursts that landed plus those on disk at the start equal dropped, vetoed, sent, failed, on disk at the end and left in the ring, but for duplicates; those need a path and a failing disk, leftovers a reply that asks for a hold, sent events a reply that accepts, and without a hold every drain takes in a burst |
| `Pipeline.HealthySession` | src/ph_native.c:905-953 | on a working disk, with no reply that asks for a hold, every captured event and every event on disk at the start is dropped, vetoed, sent, failed or on disk, exactly |
| `Pipeline.IdealSession` | src/ph_native.c:114-118 | where every POST is accepted and the disk and memory suffice, every captured event and every event on disk at the start is sent, vetoed or dropped by a full ring; none fails, none stays on disk |
| `Flags.MergeRetains` | src/ph_flags.c:270-296 | a flag that a partial response does not name stays as it was |
| `Flags.ReplacedAnswered` | src/ph_flags.c:268-284 | a replaced cache holds only what the response gave |
| `Flags.MergedAnswered` | src/ph_flags.c:285-299 | a merged cache holds only what this response or earlier ones for the same context gave |
| `Flags.JoinedGroup` | src/ph_core.c:484-521 | joining sets the group of its type and no other, except beyond the limit |
| `Flags.RefreshedGroup` | src/ph_native.c:481-499 | a scrubbed group event changes only the group it names, and only while its key is current |
| `Flags.SettleOne` | src/ph_flags.c:58-63 | settling a pending ticket keeps the history consistent and changes no earlier outcome |
| `Flags.AdmitOne` | src/ph_flags.c:36-56 | a fresh ticket may take an unused or settled slot |
| `Flags.CompletedTickets` | src/ph_flags.c:144-156 | ending the job in flight settles its ticket and touches no other job's |
| `Flags.Store.OnePending` | src/ph_flags.c:508-522 | in every reachable state at most one ticket is pending |
| `Flags.Store.ChooseSlot` | src/ph_flags.c:36-56 | its own slot, else the first unused, else the oldest settled |
| `Flags.Store.MarkReload` | src/ph_flags.c:58-63 | only a pending ticket changes, so terminal statuses never do |
| `Flags.Store.SettlePending` | src/ph_flags.c:65-73 | the pending tickets of other generations are settled |
| `Flags.Store.ContextChanged` | src/ph_flags.c:108-118 | the cache empties, the generation moves on, no ticket stays pending, no stale job stays queued |
| `Flags.Store.Identify` | src/ph_core.c:430-446 | the new identity and its properties start a context with an empty cache |
| `Flags.Store.Reset` | src/ph_core.c:472-482 | a fresh identity without groups or properties |
| `Flags.Store.SetGroup` | src/ph_core.c:484-521 | the group is joined, and the cache emptied exactly when it was accepted |
| `Flags.Store.SyncPerson` | src/ph_native.c:467-480 | a scrubbed identify event of the current user replaces the person properties; another's changes nothing |
| `Flags.Store.SyncGroup` | src/ph_native.c:481-499 | likewise for the group it names |
| `Flags.Store.Schedule` | src/ph_flags.c:84-103 | the job that serves the current context is reused, else one new id is queued |
| `Flags.Store.AutoRefresh` | src/ph_flags.c:120-126 | afterwards a job serves the current context |
| `Flags.Store.ReloadAsync` | src/ph_flags.c:508-522 | the ticket is pending and names the job of the current context; "full" never happens |
| `Flags.Store.ReloadStatus` | src/ph_flags.c:524-533 | exactly the status of the ticket's record, unknown without one; terminal only if it is the ticket's one outcome |
| `Flags.Store.TakeFetch` | src/ph_flags.c:128-142 | the queued job becomes the one in flight |
| `Flags.Store.BuildRequest` | src/ph_flags.c:312-366 | the request is built from the context of the job's generation, or the job ends superseded |
| `Flags.Store.Ingest` | src/ph_flags.c:212-304 | a response for an older context changes nothing; one for the current context replaces the cache, or merges if partial |
| `Flags.Store.CompleteFetch` | src/ph_flags.c:144-156 | the ticket of the job gets its status and the sender is free |
| `Flags.Store.AbortPending` | src/ph_flags.c:162-174 | at shutdown every pending ticket fails |
| `Flags.Store.Resolve` | src/ph_flags.c:428-447 | a read emits an exposure if and only if events are wanted, the flag is there and its value was not exposed yet; it marks that and changes nothing else |
| `Flags.Store.Step` | src/ph_flags.c:28-174 | one turn of any thread: a request comes only from a build, out of the context then current; a new answer only from a response to a request whose context is still current, and is filed under it |
| `Flags.Store.Run` | src/ph_flags.c:28-174 | in every interleaving each cached flag has the value that a response gave to a request built from exactly the current context, each new answer was brought in by a turn that found its request under way and its context current, at most one ticket is pending and names the job of the current context, and no outcome changes |
| `Flags.AnswerIsCurrent` | src/ph_flags.c:212-366 | along every run, an answer's request was built at an earlier turn from the context the answer is filed under, and that stayed the context at every turn in between |
| `Flags.BuiltBefore` | src/ph_flags.c:312-366 | a request that is under way was built at an earlier turn, from the context found there |
| `Chunked.StrictMore` | src/ph_http.c:446-499 | bytes after a complete or broken body do not change the answer |
| `Chunked.CapOnlyOverfills` | src/ph_http.c:446-499 | a bounded buffer changes the strict answer only to "too big" |
| `Chunked.StrictDecodes` | src/ph_http.c:446-499 | every list of non-empty chunks, with extensions and trailers, decodes to its concatenation when it fits |
| `Chunked.PrefixNeedsMore` | src/ph_http.c:446-499 | every proper prefix of such an encoding needs more |
| `Chunked.LenientIsPrefix` | src/ph_http.c:365-426 | whenever the strict decoder succeeds, the lenient one returns the first bytes of the same content, as many as the buffer holds, and reports the end exactly when the buffer did not fill up before |
| `ChunkedLoops.DecodeFull` | src/ph_http.c:446-499 | the strict loop gives the strict answer |
| `ChunkedLoops.CopyPrefix` | src/ph_http.c:365-426 | the lenient loop gives the lenient answer |
| `Http.FindHeaderEnd` | src/ph_http.c:251-259 | the first blank line |
| `Http.ParseStatus` | src/ph_http.c:239-249 | the three digits after the first run of spaces, or failure |
| `Http.ScanContentLength` | src/ph_http.c:288-310 | the first Content-Length line, in any case, with its ceiling |
| `Http.ScanTransferChunked` | src/ph_http.c:315-351 | the first Transfer-Encoding line lists chunked |
| `Http.StoppingEarlyIsSafe` | src/ph_http.c:586-607 | a response judged complete decodes to the same status and body, or error, whatever bytes would follow, and stays complete |
| `Http.DecodeResponse` | src/ph_http.c:501-535 | the body decoder of the fetch path computes the decoding that law speaks of |
| `Http.CheckComplete` | src/ph_http.c:586-607 | so does the completeness test |
| `HttpSend.LenientMore` | src/ph_http.c:365-426 | once the prefix buffer is full or the closing chunk was seen, bytes that follow change nothing |
| `HttpSend.StoppingKeeps` | src/ph_http.c:557-584 | an early stop of the POST path keeps the status, once it was read, and the Retry-After, whatever would have followed; it keeps the prefix searched for a quota notice if and only if the body is chunked, fills the prefix, or was all there is |
| `HttpSend.FramedBodyIsKept` | src/ph_http.c:557-584 | a chunked body, or one of announced length, loses nothing of that prefix |
| `HttpSend.UnframedBodyIsCut` | src/ph_http.c:583 | a 200 without framing whose prefix is cut at the first byte |
| `HttpSend.ParseMeta` | src/ph_http.c:537-555 | the loops compute the status, the Retry-After value and the body prefix those laws speak of |
| `HttpSend.CheckEnough` | src/ph_http.c:561-584 | so does the completeness test of the POST path |
| `HttpSend.ScanRetryAfter` | src/ph_http.c:264-283 | the first Retry-After line, in any case, without leading blanks, cut to its buffer |
| `Crash.DecodeOfEncode` | src/ph_crash.c:151-229 | for every structure, reading its record back, whatever follows it, gives the part in use exactly when every module name in use is terminated, and is refused otherwise |
| `Crash.WellFormedViewIsExact` | src/ph_crash.c:151-229 | for well-formed structures nothing is lost |
| `Crash.DecodeMore` | src/ph_crash.c:191-229 | bytes after a record do not change what it says |
| `Crash.PrefixIsRefused` | src/ph_crash.c:191-229 | no proper prefix of a whole record decodes |
| `Crash.TruncatedIsRefused` | src/ph_crash.c:151-229 | a written record cut short anywhere is refused |
| `Crash.EncodedFits` | src/ph_crash.h:94-96 | the handler's fixed buffer holds every record |
| `Crash.Encode` | src/ph_crash.c:151-189 | the buffer gets the whole record and nothing past it, or nothing at all when it is too small |
| `Crash.DecodeRecord` | src/ph_crash.c:191-229 | the offset loops accept and read exactly what the format says |
| `Flush.RunKeeps` | src/ph_native.c:831-867 | in every interleaving each pushed event is in exactly one place, the flush lock excludes, and scratch is empty outside a drain |
| `Flush.IdleFlushSettledAll` | src/ph_native.c:1007-1046 | a caller that leaves by the idle condition finds every event pushed before its call settled or dropped by a full ring, none in the ring or in the sender's hand |
| `Flush.WholeDrainIffNoneWasOn` | src/ph_native.c:1019-1032 | a caller is sure to wait for a drain that began after it read the generation if and only if no drain was on then |
| `Flush.DrainOnAtCall` | src/ph_native.c:1019-1024 | from the start, a caller can read the generation while a drain is on |
| `Flush.FlushMissesAReplay` | src/ph_native.c:1019-1032 | a run from the start in which a caller leaves idle although no drain that began after its call has ended |

## Left out

- Sockets, TLS, DNS and timeouts of src/ph_http.c: to the sender the transport is an oracle that answers each POST with a status, a Retry-After and a quota notice.
- Signal and exception handlers, stack walking and module lookup of src/ph_crash.c: operating-system behaviour.
- The WASM backend, gzip, the C++ wrapper and platform threads.
- Configuration validation, logging, statistics, UUID minting and ISO timestamps: an event carries its rendered timestamp and UUID.
- Double formatting: a double is printed as a numeral that satisfies the JSON grammar; the reader keeps a number's text, not its value.
- File faults other than an operation that fails as a whole: each disk step succeeds or leaves the file unchanged, reads are complete, fsync and rename are one step, a missing file is an empty one.
- Allocation failure, except where the code counts the loss.
- Parsing the Retry-After text and the JSON of a /flags response: the delay and the list of flags are given parsed. A date whose day is out of range is not modelled.
- The search for the quota notice in the body prefix: whether it is there is part of a reply.
- The blocking wait of ph_reload_feature_flags and every other liveness property; condition variables only matter to liveness.
- The crash report built from a decoded record (src/ph_crash.c:300-368), apart from the fate of its marked event.
- 64-bit generation and request counters are unbounded, so their wrap past zero is not modelled.
- Sender.Sender.Drain: captures that race the sender land in one burst before each pop, not between arbitrary instructions; `Flush` has the finer interleaving for its own law.
- ChunkedLoops.DecodeFull: the output buffer is a sequence, so what a failed decode leaves in it is not captured beyond the bytes copied.
- Crash.DecodeRecord: on refusal the C structure is partly filled; the model returns nothing.
- Serializer.SerializeBatch: builds the text by appending to sequences; the growth of the C string buffer is not modelled.
- The callback run on an exception when it is captured; the sender's scrub of it, the denylist alone, is modelled.
- Raw entries other than the exception list: it is the only one the SDK packs, so well-formed means printed by this writer.
- Flags.Store.Ingest: takes the parsed list of at most 64 flags; how a longer response is cut is not modelled.
