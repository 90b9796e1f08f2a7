# Delivery, streaming and audit guarantees of the gateway and its chat channels

This project models the parts of the DeerFlow backend on which message delivery, conversation continuity and
the audit trail depend, and proves what they guarantee over every run. `dafny verify dfyconfig.toml` verifies
all of it. Each module follows one component:

- `AuditOutbox`, `OutboxPass` -- the transactional outbox of audit events: producers, any number of concurrent
  workers, crashes, and database calls that return, are lost, or commit and then raise. A pass of the worker is
  proved to be a run of this protocol.
- `ArchiveSweep`, `OrderedSelect` -- the daily export of audit events with its manifest, digest read-back and
  watermarks.
- `FeishuCards` -- running cards as a protocol over the suspension points of creation tasks, callbacks and
  senders.
- `FeishuReplies`, `ChannelStore` -- which thread a reply belongs to: pending clarifications, stored mappings,
  and the flat key-value store under them.
- `InboundDedupe` -- the table of recent inbound events.
- `StreamText`, `TurnScan`, `StreamingChat` -- merging streamed text, reading an agent result, and the loop
  that publishes throttled updates and one final message.
- `Telegram`, `DiscordSplit` -- delivery by edits and follow-ups on a platform that may refuse or silently
  apply any call; splitting of long texts.
- `AesKeyCodec`, `MediaCipher` -- WeChat media keys in all the forms they arrive in, and the padded cipher.
- `PermissionCache`, `EnvFile` -- the permission cache of the gateway and the setup wizard's environment file.

Classes hold the state the source updates in place; their methods are proved against step functions, and the
theorems about whole runs are stated over sequences of those steps. I/O, clocks, task ids and the outcomes of
remote calls are parameters or arbitrary.

Where a promise does not hold as documented, the code is modelled as it is, with a failing run and the exact
condition under which the promise holds:

- Published is not a final status: marks carry no owner, so a late failure mark reopens a row
  (`PublishedReopensIff`, `PublishedStaysIff`, with the runs `SlowWorkerReopens` and `BotchedMarkReopens`). The
  event is still logged once. With prompt workers and no botched mark it is final (`PublishedIsFinal`).
- A final message is always published, says the streaming loop; it is not if the last values payload is
  unreadable (`FinalLostIff`, `MalformedValuesLoseFinal`).
- A Telegram final whose first chunk equals the last remembered text is not sent again, even if the tracked
  message was deleted or shows something else (`FinalizeStreamMessage`, `FinalAfterDeletion`). A final without a
  tracked message is not split.
- Events of an org literally named `system`, and events beyond the first 500 of a day, are not archived
  (`SweepArchivesIff`, `SystemOrgIsMissed`, `BusyDayOverflows`). Archiving a day again adds an object; the
  documentation says it overwrites (`RearchiveKeepsBoth`).
- Store keys can be read back exactly without colons in channel and chat (`KeyReadableIff`, `KeysCollide`).
  Removing with an empty topic removes one mapping, without a topic the whole chat (`DoomedIff`).
- A watermark is only advanced, says the archive worker; a clock that goes back a day takes it back
  (`WatermarkRegressesIff`, `ClockGoesBack`; on a clock that does not, `WatermarksNeverRegress`).
- The dedupe table holds one entry more than its limit (`RunKeeps`, `TableOverfills`).
- Which reading of a media key is preferred makes no difference for any value (`PreferenceNeverMatters`).
- Delta streams lose a delta that repeats the end of the text, for good (`DeltaStreamIff`, `RepeatedDeltaIsLost`).

## Model

| member | source | states |
|---|---|---|
| `AuditOutbox.Safety` | backend/app/gateway/audit_worker.py:92-134 | In every state reached by any interleaving of producers, workers, crashes and lost replies: no event id is logged twice, every log entry comes from an accepted row, a published row has its own event in the log, and a dead letter has used up its retries. |
| `AuditOutbox.RunKeeps` | backend/app/gateway/audit_worker.py:66-138 | The full invariant over every run, and nothing accepted is lost: rows keep their content, attempts never fall, the log only grows. |
| `AuditOutbox.StepKeeps` | backend/packages/harness/deerflow/persistence/audit/outbox.py:308-369 | The invariant is inductive: each statement, whether it returns, is lost, or commits and then raises, keeps it from any state that has it. |
| `AuditOutbox.EmitKeeps` | backend/app/gateway/audit_sink.py:50-71 | Emitting an event, with a fresh or an already queued event id, keeps the invariant and the existing rows. |
| `AuditOutbox.DuplicateKeyMeansDelivered` | backend/app/gateway/audit_worker.py:121-125 | The duplicate-key error means that this very event, not merely its id, is in the log, so treating it as success is right. |
| `AuditOutbox.PublishedReopensIff` | backend/packages/harness/deerflow/persistence/audit/outbox.py:329-369 | A published row loses that status in a step if and only if the step is a late failure mark by a worker that still holds the row; its event stays in the log. |
| `AuditOutbox.PublishedStaysIff` | backend/packages/harness/deerflow/persistence/audit/outbox.py:329-369 | Over a whole run, a row stays published throughout if and only if no late failure mark hits it. |
| `AuditOutbox.SlowWorkerReopens` | backend/app/gateway/audit_worker.py:129-130 | A concrete run that reopens a published row: a stalled worker records its failure after another worker took over and published. |
| `AuditOutbox.BotchedMarkReopens` | backend/app/gateway/audit_worker.py:115-130 | The other way a row is reopened: one worker's published mark is committed and then raises, and the worker goes on to mark the row failed. |
| `AuditOutbox.RunExclusive` | backend/packages/harness/deerflow/persistence/audit/outbox.py:220-250 | Over every run with prompt releases (none later than the stale limit after the claim of a worker still at its rows): the rows of a worker's queue are processing, owned by that worker since its claim, and in nobody else's queue. |
| `AuditOutbox.OneHolder` | backend/packages/harness/deerflow/persistence/audit/outbox.py:228-233 | Under the same condition no two workers ever hold the same row, whatever calls are lost and whoever crashes. |
| `AuditOutbox.PublishedIsFinal` | backend/packages/harness/deerflow/persistence/audit/outbox.py:308-369 | Over every run with prompt releases and no published mark that commits and then raises, a row once published stays published. |
| `AuditOutbox.BackoffBounds` | backend/packages/harness/deerflow/persistence/audit/outbox.py:87-95 | The wait is two seconds after the first failure, doubles with each, and is five minutes once doubling passes that, for every number of attempts. |
| `AuditOutbox.AttemptsCountFailures` | backend/packages/harness/deerflow/persistence/audit/outbox.py:352-365 | Over every run, the attempts of a row are the number of failure marks on it that reached the database. |
| `AuditOutbox.TenthFailureIsDeadLetter` | backend/packages/harness/deerflow/persistence/audit/outbox.py:352-369 | Over every run, the tenth committed failure mark of a row makes it a dead letter; each earlier one makes it pending and due after 2, 4, 8, 16, 32, 64, 128, 256 or 300 seconds by the clock of the worker that marked it. |
| `AuditOutbox.RetryWaits` | backend/packages/harness/deerflow/persistence/audit/outbox.py:219-300 | Over every run, the next claim of a failed row is made at least that wait after the failure mark, and a row is never claimed after its tenth mark. |
| `AuditOutbox.ReleasedAfterFiveMinutes` | backend/packages/harness/deerflow/persistence/audit/outbox.py:377-405 | Over every run, a release of stale rows takes a row away from the worker that claimed it if and only if more than five minutes lie between the two clocks. |
| `AuditOutbox.MarksHaveCauses` | backend/app/gateway/audit_worker.py:107-134 | In a step, a worker comes to mark a row failed if and only if the row does not decode, the insert raised for another reason than a duplicate, or a first published mark raised; it comes to mark it published if and only if the insert returned or met a duplicate. |
| `AuditOutbox.FailureHasCause` | backend/app/gateway/audit_worker.py:115-130 | Over every run, a worker about to mark a row failed has been so since such a call on that row failed. |
| `AuditOutbox.ChangesAreStamped` | backend/packages/harness/deerflow/persistence/audit/outbox.py:308-405 | Whatever changes a row, whoever does it, leaves the time of the change on it. |
| `AuditOutbox.QueueWithinBatch` | backend/packages/harness/deerflow/persistence/audit/outbox.py:219-250 | Over every run, no worker holds more rows than its batch allows. |
| `OutboxPass.OldestAreClaimed` | backend/packages/harness/deerflow/persistence/audit/outbox.py:265-300 | Claimed rows are in order of availability and then id, and every due row left behind comes after them. |
| `OutboxPass.Convergence` | backend/app/gateway/audit_worker.py:98-134 | From any database a run can reach, one pass whose calls all return publishes and delivers every claimed row that decodes, fails every other claimed row, touches nothing else, and removes exactly the claimed rows from the claimable ones. |
| `OutboxPass.CleanPassKeeps` | backend/app/gateway/audit_worker.py:98-134 | Such a pass keeps the invariant and loses nothing. |
| `OutboxPass.SettleAllRows` | backend/app/gateway/audit_worker.py:107-134 | Rows of one batch do not disturb each other: each ends as if settled alone from the state it was claimed in. |
| `OutboxPass.SettleAllLog` | backend/app/gateway/audit_worker.py:107-134 | Every log entry a pass adds is the event of one of its rows. |
| `OutboxPass.EnoughPassesDrain` | backend/app/gateway/audit_worker.py:66-138 | From any database a run can reach, clean passes at one time leave nothing to claim if and only if there are as many as batches in what was due at the start, and then every row that was due and decodes is published and delivered. |
| `OutboxPass.PassIsRowwise` | backend/app/gateway/audit_worker.py:107-134 | For every outcome of every call: each attempted row ends as if attempted alone straight after the claim, the others stay as claimed, the count is that of the rows published by their own attempts, and the pass aborts exactly at the first attempt that does. |
| `OutboxPass.FailuresStayLocal` | backend/app/gateway/audit_worker.py:107-134 | A row whose own calls go the same way ends the same, whatever happens to the other claimed rows. |
| `OutboxPass.AttemptRuns` | backend/app/gateway/audit_worker.py:107-134 | Every way one row can go, for all outcomes of insert, mark and failure mark, is a run of that worker's steps in the protocol, so the run invariants cover it. |
| `OutboxPass.Outbox.SelectClaimable` | backend/packages/harness/deerflow/persistence/audit/outbox.py:252-300 | The claim takes the first rows by availability and then id among the due pending ones, as many as the batch allows. |
| `OutboxPass.Outbox.ReleaseAndClaim` | backend/app/gateway/audit_worker.py:92-103 | Releasing stale rows and claiming, for every outcome of the two calls, is the opening of a worker's run and changes exactly the stale and the claimed rows. |
| `OutboxPass.Outbox.PublishRow` | backend/app/gateway/audit_worker.py:107-134 | The per-row branches produce exactly the tables, the count and the abort of the row's attempt: published exactly if its event was delivered and the mark returned, aborted exactly if the mark raised after a duplicate, the event logged exactly if it was not, and otherwise one more failed attempt. |
| `OutboxPass.Outbox.PublishClaimed` | backend/app/gateway/audit_worker.py:105-134 | For all outcomes, the tables, the count and the abort are those of the attempts on the rows in turn, each with its own calls, up to the first that aborts; among any other workers this is a run of the worker that moves nobody else. |
| `OutboxPass.Outbox.DrainAuditOutbox` | backend/app/gateway/audit_worker.py:66-138 | Whatever the database calls do, the tables, the count, the abort and the run of the worker are those of the opening with the first two outcomes and the attempts with the others; wherever other workers are suspended, this is a complete crash-free run among them. If all calls return it is a clean pass over the first claimable rows, counting exactly those that decode. |
| `OrderedSelect.SelectFirst` | backend/packages/harness/deerflow/persistence/audit/outbox.py:284-296 | Selecting with an order and a limit returns the first ids by rank and then id, all of them if the limit allows; the others come after. |
| `OrderedSelect.FirstInOrderUnique` | backend/app/gateway/audit_archive_worker.py:162-173 | The first ids in order are determined: any two selections agree. |
| `ChannelStore.KeyReadableIff` | backend/app/channels/store.py:74-78 | A key determines channel, chat and topic if and only if channel and chat contain no colon. |
| `ChannelStore.KeysCollide` | backend/app/channels/store.py:74-78 | With a colon in the chat id two different conversations share one key. |
| `ChannelStore.RunRefines` | backend/app/channels/store.py:82-137 | Over every sequence of sets and removals on colon-free names, the flat string-keyed dictionary represents the map keyed by conversations. |
| `ChannelStore.LookupRefines` | backend/app/channels/store.py:82-85 | A lookup in the dictionary is a lookup in that map; an empty topic is no topic. |
| `ChannelStore.DoomedIff` | backend/app/channels/store.py:118-133 | Removal by key prefix hits exactly the conversations of that chat, and removal with a topic exactly one. |
| `ChannelStore.EntryStays` | backend/app/channels/store.py:87-137 | On every dictionary that colon-free operations can reach, operations on other conversations leave the whole entry of a conversation alone, over every sequence. |
| `ChannelStore.SetIsRead` | backend/app/channels/store.py:82-107 | On the same dictionaries a mapping that was set is read back, with its user and times, until an operation on its conversation. |
| `ChannelStore.EntryKeepsCreatedAt` | backend/app/channels/store.py:97-106 | On the same dictionaries the creation time survives every sequence without a removal that hits the conversation. |
| `ChannelStore.UntouchedStays` | backend/app/channels/store.py:109-137 | The same as EntryStays for the represented map. |
| `ChannelStore.CreatedAtSurvives` | backend/app/channels/store.py:97-106 | The same as EntryKeepsCreatedAt for the represented map. |
| `ChannelStore.ListingDistinct` | backend/app/channels/store.py:139-153 | Nothing is listed twice. |
| `ChannelStore.ListingRefines` | backend/app/channels/store.py:139-153 | Listing yields exactly the mappings of the represented map, split into their parts. |
| `ChannelStore.ChannelStore.SetThreadId` | backend/app/channels/store.py:87-107 | The method performs the set of the specification; a new key goes to the end. |
| `ChannelStore.ChannelStore.RemoveMapping` | backend/app/channels/store.py:109-137 | The loop over keys performs the removal of the specification, keeps the order of the rest, and reports success exactly if something was removed. |
| `ChannelStore.ChannelStore.ListEntries` | backend/app/channels/store.py:139-153 | Exactly the items of the channel asked for, or all without one, in the order they were first stored. |
| `FeishuReplies.PendingConserved` | backend/app/channels/feishu.py:629-680 | Over every run, the clarifications removed so far followed by those still held are exactly those remembered, in order: none lost, none handed out twice. |
| `FeishuReplies.RemovedOnlyForCause` | backend/app/channels/feishu.py:667-677 | A removed clarification was handed out if and only if it was at most 1800 seconds old when it was removed. |
| `FeishuReplies.TakenExpired` | backend/app/channels/feishu.py:667-680 | Consuming passes over expired entries only, and finds nothing if and only if none is alive. |
| `FeishuReplies.AnswerIsOldestLive` | backend/app/channels/feishu.py:667-680 | A plain message gets a clarification if and only if it is the oldest one that is at most 1800 seconds old. |
| `FeishuReplies.AskedIff` | backend/app/channels/feishu.py:629-652 | A message leaves a clarification behind if and only if it is final, asks for one and has user, topic, thread, source and card; the clarification holds exactly these. |
| `FeishuReplies.QuestionIsTakenUp` | backend/app/channels/feishu.py:629-680 | After any history, a question put to a user who has no other waiting is the one a plain message within half an hour gets. |
| `FeishuReplies.OpsInTurn` | backend/app/channels/feishu.py:629-680 | A history in two parts is the operations of the first and then those of the second. |
| `FeishuReplies.NoEmptyQueues` | backend/app/channels/feishu.py:672-679 | No empty queue stays behind in any reachable state. |
| `FeishuReplies.ReplyContinuity` | backend/app/channels/feishu.py:595-716 | An answer named an id and remembered it. After any later store operations that do not overwrite it, a reply with that root id resolves to it; with that parent id, if and only if no other root id is mapped; with that thread id, if and only if no other root id, or without a mapped root id no other parent id, is mapped. The lookup gives the thread of the answer. |
| `FeishuReplies.ResolvesInOrder` | backend/app/channels/feishu.py:703-716 | A reply resolves by its root id if that is mapped, else by its parent id, else by its thread id. |
| `FeishuReplies.TopicIdsAre` | backend/app/channels/feishu.py:600-617 | The ids remembered are those passed in and the message, root, parent, thread and topic id of the metadata, stripped, and no others. |
| `FeishuReplies.PendingContinuity` | backend/app/channels/feishu.py:629-691 | A plain message that takes a clarification out of any history answers an outbound of the same chat and user that asked it; after any store operations that do not overwrite its topic, the lookup gives that outbound's thread, if and only if the thread id has no surrounding whitespace. |
| `FeishuReplies.AnswerWasRemembered` | backend/app/channels/feishu.py:660-680 | Over every run, what is handed out was remembered under that key and is still alive. |
| `FeishuReplies.RememberedIsMapped` | backend/app/channels/feishu.py:705-712 | An id remembered for an answer stays mapped to its thread after any operations that do not overwrite it. |
| `FeishuReplies.FirstMappedIsMapped` | backend/app/channels/feishu.py:693-716 | Resolution returns the first candidate with a mapping, if and only if there is one. |
| `FeishuReplies.OverwritesIff` | backend/app/channels/store.py:109-137 | On colon-free names a store operation overwrites a key exactly if it concerns that conversation. |
| `FeishuReplies.PendingThreadKeptIff` | backend/app/channels/feishu.py:682-691 | The thread id of a pending clarification is stored unchanged if and only if it has no surrounding whitespace. |
| `FeishuReplies.FeishuThreads.RememberThreadMapping` | backend/app/channels/feishu.py:595-627 | Exactly the known ids of the message are mapped to its thread, keeping earlier creation times, all other keys stay; each id passed in and each of the five metadata ids that is not blank is found with the thread, the user and the time. |
| `FeishuReplies.FeishuThreads.RememberPendingClarification` | backend/app/channels/feishu.py:629-658 | Appended exactly if the message is a final clarification with every id present; otherwise nothing changes. |
| `FeishuReplies.FeishuThreads.ConsumePendingClarification` | backend/app/channels/feishu.py:660-680 | The loop removes and answers as the queue specification says. |
| `FeishuReplies.FeishuThreads.ResolveTopicId` | backend/app/channels/feishu.py:693-716 | The first of root, parent and thread id with a stored non-empty thread; without one the root id, else the message id. |
| `FeishuReplies.FeishuThreads.RouteInbound` | backend/app/channels/feishu.py:885-902 | Stored mappings win, by root, parent and thread id in that order, and consume nothing; otherwise a chat message takes the oldest live clarification and its mapping is stored again for the sender; a command never does. |
| `FeishuCards.RunKeeps` | backend/app/channels/feishu.py:495-591 | Invariant over every interleaving of creations, callbacks and senders: a creation in flight is the one its source waits for, with no card recorded, and a suspended sender waits for a creation of its own source. |
| `FeishuCards.OneCreationInFlight` | backend/app/channels/feishu.py:505-518 | At most one card creation is in flight per source message, and only while no card is recorded. |
| `FeishuCards.CreationStartsOnlyWhenIdle` | backend/app/channels/feishu.py:505-518 | A creation starts only for a source with neither a recorded card nor a creation in flight, and never for a final message. |
| `FeishuCards.RecordChangesIff` | backend/app/channels/feishu.py:495-503 | The recorded card of a source changes exactly when a creation of it ends with a card or a final message of it goes through. |
| `FeishuCards.OneCardBetweenFinals` | backend/app/channels/feishu.py:586-588 | Between two cards recorded for one source message, a final message of that source went through. |
| `FeishuCards.WakeUsesCreatedCard` | backend/app/channels/feishu.py:550-581 | A sender that waited for a creation goes on with exactly that creation's card, or without one if it made none. |
| `FeishuCards.TurnsToItsCard` | backend/app/channels/feishu.py:545-584 | A call patches the recorded card if there is one, else waits for the creation under way, and only without either does it reply itself, if final, or create the card. |
| `FeishuCards.EndsIff` | backend/app/channels/feishu.py:543-589 | A call returns in a step if and only if its text was accepted, or it is an update whose own card was created or whose awaited creation made none; it raises if and only if the awaited creation did, an update could not be patched, or a reply was refused. |
| `FeishuCards.FinalIsSent` | backend/app/channels/feishu.py:543-589 | Over every run, a final message whose call returned was accepted by the platform, by a patch or a reply of that very call. |
| `FeishuCards.FinalFailsByItself` | backend/app/channels/feishu.py:556-576 | Over every run, a final message whose call raised waited for a creation that raised, or had its own reply refused. |
| `FeishuCards.SentOnce` | backend/app/channels/feishu.py:543-589 | Over every run, the platform accepts the text of one call at most once. |
| `FeishuCards.CreatorSendsNothingElse` | backend/app/channels/feishu.py:582-584 | Over every run, an update whose text became the card is not patched or replied as well. |
| `FeishuCards.PatchesOwnCard` | backend/app/channels/feishu.py:495-571 | Over every run, recorded cards and cards being patched were made by a creation for that very message. |
| `FeishuCards.AskedIsServed` | backend/app/channels/feishu.py:505-518 | Whoever asks for a running card finds one recorded or under way, and an idle source gets a creation. |
| `FeishuCards.FinalizedIsForgotten` | backend/app/channels/feishu.py:520-523 | Over every run, a creation whose done callback ran is never waited for again. |
| `FeishuCards.RunningCards.EnsureRunningCardStarted` | backend/app/channels/feishu.py:505-518 | One step of the protocol; it returns no task exactly if a card is recorded. |
| `FeishuCards.RunningCards.ResumeCreation` | backend/app/channels/feishu.py:495-503 | One step of the protocol: a finished creation with a card records it. |
| `FeishuCards.RunningCards.FinalizeRunningCardTask` | backend/app/channels/feishu.py:520-523 | One step of the protocol: a creation is forgotten only if it is still the current one of its source. |
| `FeishuCards.RunningCards.BeginSendCardMessage` | backend/app/channels/feishu.py:543-584 | One step of the protocol, up to the first suspension; no call ends here. |
| `FeishuCards.RunningCards.FinishSendCardMessage` | backend/app/channels/feishu.py:556-591 | One step of the protocol; a final message that goes through leaves no card on record. |
| `InboundDedupe.AcceptedTwice` | backend/app/channels/manager.py:1013-1040 | Over every run: a key accepted twice was released in between, or more than 600 seconds passed, or at least 4096 other messages were accepted in between. |
| `InboundDedupe.DuplicateHasCause` | backend/app/channels/manager.py:1013-1040 | Over every run: a message is dropped only for one with its key that was accepted at most 600 seconds before and not released since. |
| `InboundDedupe.RunKeeps` | backend/app/channels/manager.py:1013-1052 | Every run keeps the table in time order with distinct keys of received messages, and at most one entry above the limit. |
| `InboundDedupe.FrontEvictionIsFilter` | backend/app/channels/manager.py:1019-1026 | Evicting from the front only gives the table with every expired entry filtered out, in the same order. |
| `InboundDedupe.ReleasedIsAccepted` | backend/app/channels/manager.py:1042-1052 | A released key is accepted again, whatever the table. |
| `InboundDedupe.ExpiredIsAccepted` | backend/app/channels/manager.py:1019-1026 | A key whose entry expired is accepted again. |
| `InboundDedupe.TableOverfills` | backend/app/channels/manager.py:1027-1039 | The limit is passed by one: so many distinct messages all stay in the table. |
| `InboundDedupe.RecentEvents.IsDuplicateInbound` | backend/app/channels/manager.py:1013-1040 | The two eviction loops and the test perform one step of the specification; messages without a key change nothing. |
| `InboundDedupe.RecentEvents.ReleaseInboundDedupeKey` | backend/app/channels/manager.py:1042-1052 | Removes the key and nothing else. |
| `StreamText.MergeKeeps` | backend/app/channels/manager.py:353-363 | Merging never drops text already shown, ends with the new chunk, and adds no more than the chunk. |
| `StreamText.MergeReplay` | backend/app/channels/manager.py:353-363 | A replayed chunk changes nothing. |
| `StreamText.MergeAppendsIff` | backend/app/channels/manager.py:353-363 | A chunk is appended whole exactly if it neither extends nor repeats what is there. |
| `StreamText.SnapshotStream` | backend/app/channels/manager.py:359-360 | A stream of growing snapshots merges to the last one. |
| `StreamText.DeltaStreamIff` | backend/app/channels/manager.py:353-363 | A stream of deltas merges to their concatenation if and only if each delta is new at its place; text once lost stays lost. |
| `StreamText.RepeatedDeltaIsLost` | backend/app/channels/manager.py:361-362 | A concrete stream that loses a letter: a doubled letter sent as two deltas. |
| `StreamText.AccumulateIsLocal` | backend/app/channels/manager.py:382-416 | A payload touches only the buffer of its own message, and there only adds. |
| `StreamText.AccumulateReplay` | backend/app/channels/manager.py:382-416 | A payload received twice leaves the same buffers and the same current message. |
| `StreamText.StreamBuffers.AccumulateStreamText` | backend/app/channels/manager.py:382-416 | The method performs the accumulation and returns the text of the message it belongs to: its own id, else the current one, else the default; tool messages and empty texts change nothing. |
| `TurnScan.ResponseIsLastText` | backend/app/channels/manager.py:207-260 | The response is the text of the last message of the current turn that has any, and empty exactly if none has. |
| `TurnScan.ResponseIsSpoken` | backend/app/channels/manager.py:238-260 | A text is the response if and only if a message of the current turn says it, as a clarification question or as the AI in text or blocks, and no later one says anything. |
| `TurnScan.BlocksInOrder` | backend/app/channels/manager.py:250-259 | Blocks are read in order. |
| `TurnScan.OneBlock` | backend/app/channels/manager.py:252-256 | A text block or a string counts as it is, another block not at all, a text block without a text raises. |
| `TurnScan.HiddenIsTransparent` | backend/app/channels/manager.py:233-236 | A hidden human message changes neither response nor artifacts, wherever it stands. |
| `TurnScan.ResponseForgetsPast` | backend/app/channels/manager.py:232-236 | Nothing before a visible human message changes the response. |
| `TurnScan.ResponseRaisesIff` | backend/app/channels/manager.py:249-259 | Reading the response raises exactly if the last message of the turn with anything to say holds a text block without a text. |
| `TurnScan.ArtifactsAreTurnPaths` | backend/app/channels/manager.py:419-451 | Exactly the paths presented in the current turn are returned. |
| `TurnScan.ArtifactsInOrder` | backend/app/channels/manager.py:435-451 | Paths of later messages come first, and each counts as often as it was presented. |
| `TurnScan.CallsInOrder` | backend/app/channels/manager.py:445-450 | The calls of one message are taken in order. |
| `TurnScan.OneCall` | backend/app/channels/manager.py:445-450 | Only a call that presents files counts, with its paths. |
| `TurnScan.PathsInOrder` | backend/app/channels/manager.py:449-450 | The paths of one call are taken in order, without those that are no strings. |
| `TurnScan.ArtifactsForgetPast` | backend/app/channels/manager.py:438-442 | Nothing before a visible human message adds an artifact. |
| `TurnScan.ArtifactsRaiseIff` | backend/app/channels/manager.py:443-450 | Collecting artifacts raises exactly if some message of the turn has calls that cannot be iterated or a presentation without fields. |
| `TurnScan.ClarificationIsResponse` | backend/app/channels/manager.py:286-301 | A turn that counts as a clarification is answered with the question's own text. |
| `TurnScan.ClarifiesIff` | backend/app/channels/manager.py:286-301 | The turn ends in a clarification if and only if a clarification question is followed by nothing but silence. |
| `TurnScan.ExtractResponseText` | backend/app/channels/manager.py:207-260 | The backward loop with its early returns computes the response. |
| `TurnScan.ExtractArtifacts` | backend/app/channels/manager.py:419-451 | The backward loop computes the artifacts of the turn. |
| `TurnScan.HasCurrentTurnClarification` | backend/app/channels/manager.py:273-301 | The backward loop decides whether the last word of the turn is a clarification question. |
| `StreamingChat.UpdatesWellSpaced` | backend/app/channels/manager.py:1419-1440 | Over every event stream and clock: updates are non-empty, differ from the one before, and are at least 0.35 seconds apart. |
| `StreamingChat.UpdatesShowDisplay` | backend/app/channels/manager.py:1409-1440 | Every update is the text on display at the event it was sent for. |
| `StreamingChat.NothingHeldBack` | backend/app/channels/manager.py:1419-1424 | After each event the latest text has been sent unless the interval since the last update has not passed. |
| `StreamingChat.BuffersMerge` | backend/app/channels/manager.py:1409-1412 | However messages are interleaved, each buffer holds the chunks of its own message merged in order. |
| `StreamingChat.DisplayIsLastText` | backend/app/channels/manager.py:1409-1418 | The latest text is the last one that any event put up: a message merged so far, or the response of a snapshot. |
| `StreamingChat.StreamedMessageShown` | backend/app/channels/manager.py:1409-1412 | A message streamed alone is shown as its deltas put together if and only if every delta counts as new text. |
| `StreamingChat.ValuesAreLast` | backend/app/channels/manager.py:1413-1414 | The values kept for the final message are those of the last values event. |
| `StreamingChat.FinalLostIff` | backend/app/channels/manager.py:1447-1451 | No final message can be built if and only if the last values payload has one of the unreadable shapes. |
| `StreamingChat.MalformedValuesLoseFinal` | backend/app/channels/manager.py:1413-1415 | A concrete stream whose final message is lost. |
| `StreamingChat.FinalTextSound` | backend/app/channels/manager.py:1455-1466 | The final text is never empty and starts with the response. Without response and files it is the busy message if the stream failed for that and the loop did not break, the error message if the loop broke or the stream failed otherwise, else the latest text or the placeholder; unless the agent itself said so, the two messages appear in no other case. |
| `StreamingChat.FinalCarriesTurn` | backend/app/channels/manager.py:1448-1489 | The final message carries the files of the turn, and is marked as a clarification if and only if the turn ended in one. |
| `StreamingChat.BreaksIff` | backend/app/channels/manager.py:1413-1416 | An event breaks the loop if and only if it is a values payload that cannot be iterated or whose response cannot be read. |
| `StreamingChat.DeliveryIsParagraphs` | backend/app/channels/manager.py:634-660 | The response, the listing of unresolved files and the listing of attached files, those that are there, with a blank line between them. |
| `StreamingChat.NamesReadBack` | backend/app/channels/manager.py:466-473 | A listing reads back as the names of its files, in order. |
| `StreamingChat.BaseNameIs` | backend/app/channels/manager.py:470-470 | The name of a file is what follows the last slash. |
| `StreamingChat.KeepsInOrder` | backend/app/channels/manager.py:646-648 | Exactly the files that could (or could not) be resolved, in order. |
| `StreamingChat.StreamedTextIsFinal` | backend/app/channels/manager.py:1448 | Without a values event the final message can always be built, and is the streamed text. |
| `StreamingChat.StreamEvents` | backend/app/channels/manager.py:1400-1446 | The loop sends exactly the updates of the events it gets through and stops at the first that breaks it. |
| `StreamingChat.HandleStreamingChat` | backend/app/channels/manager.py:1383-1489 | The updates, then exactly one final message as the last thing sent, unless the last values payload is unreadable; then no final at all. Without response and files the final says what went wrong, case by case. |
| `AesKeyCodec.ParseInvertsRender` | backend/app/channels/wechat.py:1170-1203 | For every sixteen-byte key, all thirty ways of writing it (hex, Base64, Base64 of hex, Base64 of quoted hex; case, alphabet, padding, quotes) parse back to the key, with and without preference for hex. |
| `AesKeyCodec.SpaceAroundIsIgnored` | backend/app/channels/wechat.py:1182-1185 | Whitespace around a text changes nothing. |
| `AesKeyCodec.ParsedIsKey` | backend/app/channels/wechat.py:1171-1180 | Whatever is parsed is sixteen bytes long; bytes are taken as they are, exactly if they are sixteen. |
| `AesKeyCodec.PreferenceNeverMatters` | backend/app/channels/wechat.py:1186-1203 | For every value of a field, trying hex first and trying Base64 first give the same key. |
| `AesKeyCodec.FormsDontCollide` | backend/app/channels/wechat.py:1170-1203 | No text writes two different keys. |
| `AesKeyCodec.HexIsNotBase64` | backend/app/channels/wechat.py:1192-1203 | Text that reads as a key in hex, with or without whitespace in it, is never taken for a Base64 key. |
| `AesKeyCodec.Base64KeyOf` | backend/app/channels/wechat.py:1128-1168 | Every Base64 writing of a key, or of its hex text, decodes to the key. |
| `AesKeyCodec.A2bOfEncode` | backend/app/channels/wechat.py:1155-1166 | The Base64 decoder inverts the encoder on every byte string, strict or lenient. |
| `AesKeyCodec.OutboundKeyForm` | backend/app/channels/wechat.py:114-115 | What the sender writes is the padded Base64 of the 32 lower-case hex digits of the key. |
| `AesKeyCodec.AlphabetIs` | backend/app/channels/wechat.py:1155-1166 | The Base64 digits are those of tables 1 and 2 of RFC 4648. |
| `AesKeyCodec.EncodingExamples` | backend/app/channels/wechat.py:114-115 | The encodings of f, fo and foo are those of section 10 of RFC 4648. |
| `AesKeyCodec.StrictImpliesLenient` | backend/app/channels/wechat.py:1155-1166 | What strict decoding accepts, lenient URL-safe decoding reads the same way. |
| `MediaCipher.ResolveMediaAesKey` | backend/app/channels/wechat.py:1205-1223 | The nested loops return the first candidate that parses, hex fields before Base64 fields before the nested media payload. |
| `MediaCipher.KeyOfPayload` | backend/app/channels/wechat.py:1208-1222 | The key of a payload is the first found in its fields aeskey, aes_key_hex, aes_key, aesKey, encrypt_key, encryptKey, then whatever its media object yields; a payload that is no mapping yields none. |
| `MediaCipher.PayloadsInOrder` | backend/app/channels/wechat.py:1207-1223 | Payloads are asked in turn, and the first key ends the search. |
| `MediaCipher.OutboundKeyResolves` | backend/app/channels/wechat.py:114-115 | A key written for an outbound item is the key resolved from that item. |
| `MediaCipher.UnpadIff` | backend/app/channels/wechat.py:85-101 | Unpadding succeeds with a content exactly on the padded form of that content. |
| `MediaCipher.PadTellsItsLength` | backend/app/channels/wechat.py:85-101 | Padding adds one to sixteen bytes up to whole blocks, each of them the number of bytes added. |
| `MediaCipher.BlockAt` | backend/app/channels/wechat.py:85-101 | Each block of the result is the image of the block at the same place. |
| `MediaCipher.DecryptIff` | backend/app/channels/wechat.py:85-101 | For every block permutation, decryption yields a content if and only if the input is its encryption; the size is the announced one. |
| `Telegram.ChunksRejoin` | backend/app/channels/telegram.py:333-335 | The chunks fit, all but the last are full, and together they are the text, for every text. |
| `Telegram.SplitMessage` | backend/app/channels/telegram.py:333-335 | The stepwise split computes those chunks. |
| `Telegram.DeliveredReadsAsText` | backend/app/channels/telegram.py:196-213 | Delivered messages read one after the other are the text, and each fits. |
| `Telegram.RetriedAcknowledges` | backend/app/channels/base.py:75-107 | A retried send leaves at most one acknowledged message; it gives up only after three refusals. |
| `Telegram.TelegramChannel.RegisterStreamMessage` | backend/app/channels/telegram.py:308-316 | The message becomes the newest tracked one and the oldest make room; never more than 256 are tracked. |
| `Telegram.TelegramChannel.SendRunningReply` | backend/app/channels/telegram.py:337-356 | One send; if acknowledged, it is tracked with a zero timestamp. |
| `Telegram.TelegramChannel.SendStreamUpdate` | backend/app/channels/telegram.py:139-194 | The calls made and what is tracked afterwards, for every outcome; nothing is called exactly if the last edit is less than a second (in a group three) ago or shows the text already. What the channel remembers stops matching the chat if and only if a replacement message was sent and not acknowledged while the tracked message shows the new text; an acknowledged call makes it match again. |
| `Telegram.TelegramChannel.Serve` | backend/app/channels/telegram.py:116-194 | Over any sequence of replies, updates, finals and deletions by others: never more than 256 tracked messages, every edit is of the tracked message, new and not too soon, and the keys out of sync are exactly those with a silently applied edit that no acknowledged call has made good since and whose message is still tracked and in the chat. |
| `Telegram.EditsKeepTheirDistance` | backend/app/channels/telegram.py:150-160 | Over any such sequence: after an update that reached the chat, the next edit of that conversation is at least a second away, in a group three. |
| `Telegram.FinalAfterDeletion` | backend/app/channels/telegram.py:201-206 | A concrete run whose final text is not in the chat: the tracked message shows it already, is deleted, and the final makes no call. |
| `Telegram.TelegramChannel.EditFinalChunk` | backend/app/channels/telegram.py:215-229 | One retry exactly if rate-limited; success exactly if the message shows the text. |
| `Telegram.TelegramChannel.SendNewMessage` | backend/app/channels/telegram.py:231-251 | Equal sends until one is acknowledged or three are refused; older messages are untouched. |
| `Telegram.TelegramChannel.FinalizeStreamMessage` | backend/app/channels/telegram.py:196-213 | If it does not raise, the whole text is in the chat in order, if and only if the first chunk is new or the tracked message still shows it; it raises only when retries are used up; no chunk is acknowledged twice. |
| `Telegram.TelegramChannel.SendFinal` | backend/app/channels/telegram.py:116-137 | The same for the tracked message of the key, which is forgotten; without one the text goes out as a single message. |
| `DiscordSplit.SplitText` | backend/app/channels/discord.py:603-619 | The loop cuts at the last line break of each window that leaves a non-empty chunk, else at its end. |
| `DiscordSplit.SplitLosesOnlyNewlines` | backend/app/channels/discord.py:603-619 | Every chunk is non-empty and fits into 2000 characters, none but the first starts with a newline, and the text is the chunks in order, separated by runs of newlines only. |
| `DiscordSplit.LastNewline` | backend/app/channels/discord.py:610-610 | The last line break of the window, or -1. |
| `PermissionCache.ReadsLastWrite` | backend/app/gateway/authorize_cache.py:107-126 | Over every run on a monotonic clock, a read returns the last write of the key unless it was invalidated, cleared or has expired. |
| `PermissionCache.StaleWithinAMinute` | backend/app/gateway/authorize_cache.py:87-126 | What a read returns was written less than a minute ago, whatever lifetime was asked for. |
| `PermissionCache.ClampTtl` | backend/app/gateway/authorize_cache.py:87-92 | The lifetime is the allowed one nearest to the one asked for. |
| `PermissionCache.OrgKeyInjective` | backend/app/gateway/authorize_cache.py:45-52 | On colon-free org ids and kinds, cache keys of different principals differ. |
| `PermissionCache.OrgMeetsSystemIff` | backend/app/gateway/authorize_cache.py:45-57 | A tenant key equals a system key exactly if the org is, or starts with, the system prefix and the rest is the admin id. |
| `PermissionCache.SystemKeysApart` | backend/app/gateway/authorize_cache.py:45-57 | No tenant key, whatever its org, kind and id, is the key of a system admin whose id contains no colon. |
| `PermissionCache.SystemKeyMetIff` | backend/app/gateway/authorize_cache.py:45-57 | Exactly so: some tenant key meets the key of an admin if and only if the admin's id contains a colon. |
| `PermissionCache.InMemoryPermissionCache.GetPermissions` | backend/app/gateway/authorize_cache.py:107-116 | One step of the specification: an expired entry is dropped by the read that finds it. |
| `PermissionCache.InMemoryPermissionCache.SetPermissions` | backend/app/gateway/authorize_cache.py:118-120 | One step of the specification, with the clamped lifetime. |
| `ArchiveSweep.WindowIsClosed` | backend/app/gateway/audit_archive_worker.py:201-205 | The exported window has ended, and is the same one until the day is over. |
| `ArchiveSweep.WindowIsYesterday` | backend/app/gateway/audit_archive_worker.py:201-205 | A time is in the window if and only if its day is the one before; the next day's window starts where this one ends. |
| `ArchiveSweep.DailySweepsExportOnce` | backend/app/gateway/audit_archive_worker.py:184-285 | Over complete sweeps on consecutive days, a sweep exports an event if and only if it is the one of the day after, the event's org is not named system and fewer than 500 events of its org come before it that day: every event at most once. |
| `ArchiveSweep.ExportedIsYesterday` | backend/app/gateway/audit_archive_worker.py:156-173 | Every exported event is of the org and of yesterday. |
| `ArchiveSweep.ContentReadsBack` | backend/app/gateway/audit_archive_worker.py:222-226 | Reading the object line by line gives the renderings of the exported events, in order. |
| `ArchiveSweep.ExportIsStable` | backend/app/gateway/audit_archive_worker.py:143-181 | Two exports of one window are the same rows in the same order. |
| `ArchiveSweep.ExportCompleteIff` | backend/app/gateway/audit_archive_worker.py:162-173 | A window is exported completely if and only if it has at most 500 events. |
| `ArchiveSweep.AmongFirst` | backend/app/gateway/audit_archive_worker.py:162-173 | An event is in an export exactly if fewer than 500 events of the window come before it. |
| `ArchiveSweep.BusyDayOverflows` | backend/app/gateway/audit_archive_worker.py:162-173 | A concrete day of 501 events whose last one is never exported. |
| `ArchiveSweep.SystemOrgIsMissed` | backend/app/gateway/audit_archive_worker.py:101-109 | A concrete event that no org of the sweep covers. |
| `ArchiveSweep.SweepArchivesIff` | backend/app/gateway/audit_archive_worker.py:207-246 | After a complete sweep, an event of the day is in a stored object of that sweep if and only if its org is not named system and fewer than 500 events of its org come before it that day; objects of earlier sweeps are not considered. |
| `ArchiveSweep.ManifestsNameObjects` | backend/app/gateway/audit_archive_worker.py:218-246 | Over every run with fresh batch ids, each manifest names an object that is still there and holds the export with the manifest's digest, count, first and last event. |
| `ArchiveSweep.EventCoveredIff` | backend/app/gateway/audit_archive_worker.py:101-109 | An event belongs to some exported org if and only if its org is not literally named system. |
| `ArchiveSweep.WatermarkMovesIff` | backend/app/gateway/audit_archive_worker.py:248-266 | The watermarks change if and only if the stored object was read back with its own digest, and then only that org's, to the window's end and last exported event. |
| `ArchiveSweep.BatchCountConserved` | backend/app/gateway/audit_archive_worker.py:117-140 | Over any sweeps, an org's watermark counts its verified batches. |
| `ArchiveSweep.WatermarkRegressesIff` | backend/app/gateway/audit_archive_worker.py:117-140 | A watermark moves backwards exactly if a verified export is of an earlier window. |
| `ArchiveSweep.ClockGoesBack` | backend/app/gateway/audit_archive_worker.py:117-140 | A concrete pair of sweeps that takes a watermark back. |
| `ArchiveSweep.WatermarksNeverRegress` | backend/app/gateway/audit_archive_worker.py:201-275 | Over every sequence of sweeps on a clock that does not go back, no watermark goes back. |
| `ArchiveSweep.ManifestDescribesExport` | backend/app/gateway/audit_archive_worker.py:231-246 | Count, first and last event and digest of the manifest are those of the stored object, and the object holds exactly the events up to the last one. |
| `ArchiveSweep.ManifestNamesItsDay` | backend/app/gateway/audit_archive_worker.py:231-246 | The manifest's org is that of every exported event, and its window is one day and contains them all. |
| `ArchiveSweep.RearchiveKeepsBoth` | backend/app/gateway/audit_archive_worker.py:218-229 | Archiving a window again keeps the first object next to the second if and only if the batch ids differ; if the events have not changed both hold the same content. |
| `ArchiveSweep.ArchiveWorker.ExportWindow` | backend/app/gateway/audit_archive_worker.py:143-181 | The rows are the first 500 events of the window by time and then id. |
| `ArchiveSweep.ArchiveWorker.UpsertWatermark` | backend/app/gateway/audit_archive_worker.py:117-140 | Overwrites window end and last event, and counts the batch. |
| `ArchiveSweep.ArchiveWorker.ArchiveOrg` | backend/app/gateway/audit_archive_worker.py:212-275 | One org is one step of the specification; it raises exactly if a write raised. |
| `ArchiveSweep.ArchiveWorker.SweepArchiveAudit` | backend/app/gateway/audit_archive_worker.py:184-285 | A sweep is the run of its orgs' steps; its report counts verified batches and events and lists exactly the failed orgs. It raises exactly at the first org one of whose writes raises; a failed read-back does not end it. |
| `EnvFile.RoundTripIff` | scripts/wizard/writer.py:32-73 | Reading a written file gives the old settings updated by the new ones if and only if every key and value is clean, for every previous file. |
| `EnvFile.ReadOfWritten` | scripts/wizard/writer.py:57-73 | Lines written are the lines read back. |
| `EnvFile.ReadsLineByLine` | scripts/wizard/writer.py:37-37 | Every line up to its end, be it a newline, a return, both, or another line break, is a line, whatever follows. |
| `EnvFile.UnterminatedLine` | scripts/wizard/writer.py:55-55 | A last line that nothing ends is read like the others. |
| `EnvFile.ReadLosesOnlyBreaks` | scripts/wizard/writer.py:37-37 | Reading a text as lines loses its line breaks and nothing else. |
| `EnvFile.BreaksAre` | scripts/wizard/writer.py:37-37 | Lines end at the ten boundaries of splitlines and at no other character. |
| `EnvFile.ParsesIff` | scripts/wizard/writer.py:38-43 | A line sets a key to a value if and only if these are the stripped texts before and after its first equals sign and the line is no comment. |
| `EnvFile.LastSettingWins` | scripts/wizard/writer.py:36-44 | The value of a key is that of the last line that sets it. |
| `EnvFile.WritesInPlace` | scripts/wizard/writer.py:59-71 | Read again, every old line is where it was, unchanged or as the new setting of its key, and new settings follow. |
| `EnvFile.AppendedInOrder` | scripts/wizard/writer.py:69-71 | New settings are appended in the order given. |
| `EnvFile.ParseOfSetting` | scripts/wizard/writer.py:37-43 | A clean setting is read back as its key and value. |
| `EnvFile.UnrelatedLinesStay` | scripts/wizard/writer.py:52-67 | Comments, blank lines and settings of other keys stay, in order. |
| `EnvFile.WriteTwice` | scripts/wizard/writer.py:47-73 | Writing the same settings again changes nothing. |
| `EnvFile.ReadEnvFile` | scripts/wizard/writer.py:32-44 | The loop computes the settings of the lines; a missing file has none. |
| `EnvFile.WriteEnvFile` | scripts/wizard/writer.py:47-73 | The two loops compute the new file text, which ends in a newline. |

## Left out

- SQL, JSON, HTTP and the chat platforms' SDKs: statements and calls are modelled by their effect and outcome.
- `run_audit_worker`, `run_audit_archive_worker` and the backlog metrics: loops and logging around a pass.
- AES and SHA-256 themselves: a block permutation with its inverse, and an arbitrary digest function; validation of the key length is not modelled.
- Saving and loading of the channel store file: the model is the dictionary in memory.
- Derivation of the dedupe key, and extraction of text and message id from stream payloads: parameters.
- The connection repository that can replace the channel store in thread lookups.
- Failures of the message bus while the streaming loop publishes, and of artifact resolution: resolution is an arbitrary predicate on paths.
- The non-streaming chat path, commands, uploads and artifact file delivery of the channel manager: mostly plumbing.
- Feishu reactions, messages without a source message, and `stop`; Telegram file sends, reply threading, chat id parsing, and interleavings of two sends for the same key at an await.
- Database failures while the archive worker reads rows or moves a watermark.
- Object keys of the archive are structured values, event ids ordered numbers, and clocks real numbers; the log text of failures is not modelled.
- Other channel adapters, the authorization middleware, the wizard's configuration file and the doctor script: request plumbing, rendering of configuration and diagnostics.
- OutboxPass.Outbox.DrainAuditOutbox: the tables are not changed by others between the calls of one pass; interleavings are covered by the run theorems over the protocol's steps, of which a pass is a run.
- The orgs of a sweep read one snapshot of the events, where the archive worker queries the table once per org.
- OutboxPass.Convergence: speaks of passes without a competing worker, like `EnoughPassesDrain`; with several workers `RunKeeps` and `Safety` hold, but how far a pass gets depends on the others.
- EnvFile.WriteEnvFile: takes the settings as a list with distinct keys, which a Python dictionary is.
- EnvFile.UnrelatedLinesStay: stated for clean settings only, like `WriteTwice`; an unclean one can split or swallow lines, which `RoundTripIff` covers.
