# The change-feed core of Sync Gateway, modelled and verified

Mutations reach Sync Gateway out of order. They are put back into sequence, cached per channel in bounded logs that
must agree with the full channel log in the bucket, and merged into one ordered `_changes` feed. This project models
that path and the algebra around it in Dafny and proves what it promises. `dafny verify dfyconfig.toml` checks
everything.

State that the program updates in place is a class here, loops are loops, and each such method is proved against a
specification function. What the program promises is then proved of the specification: about single calls, and about
every state of every run.

| files | part of the system |
|---|---|
| `Options`, `LogEntries`, `ChannelCacheSpec`, `CacheLimits`, `ChannelCache` | log entries and the per-channel cache |
| `ChannelQuery`, `ChannelStore`, `ChannelAnswer`, `ActiveOnlyRequests`, `RepeatRequests` | channel queries; agreement of cache and bucket; answers to requests |
| `ChannelCacheRuns`, `LateChangeLost` | all runs of a channel cache |
| `SequenceBufferSpec`, `SequenceBuffer`, `BufferChoices`, `SequenceBufferRuns`, `ChannelContents` | re-sequencing: pending queue, skipped sequences, all runs; what each channel ends up with |
| `LateSequencesSpec`, `LateSequences`, `LateSequenceRuns` | late sequences and the feeds that listen to them, all runs |
| `SequenceIds`, `ChangesMerge`, `ChangesFeed`, `ChangesFeedExact`, `LateFeeds`, `ResumePoints` | the merge of channel feeds and late feeds into one, and where a reader resumes |
| `SequenceAccounting` | sequence numbers of concurrent writers across retries |
| `Numbers`, `BigEndian`, `VbSeqs`, `ClockPartitionLayout`, `ClockPartition` | clock partitions stored as bytes |
| `Texts`, `TimedSets`, `TimedSetCodec`, `ChannelGrants`, `ClockGrants`, `ClockGrantOrder`, `ClockAccess` | timed sets, their string encoding, channel grants |
| `DcpBackfillSpec`, `DcpBackfill`, `DcpRollbacks` | backfill accounting of a DCP feed |

## Where the code does not do what one would expect

Each of these is kept as the code has it, with a lemma that gives the input and one that says exactly when all is well.

- A change with a low sequence that is written and delivered while a channel query is in flight can be lost to the
  cache: the cache ignores it as too old, then the prepend lowers `validFrom` past it
  (`LateChangeLost.LateChangeIsLost`). `ChannelCacheRuns.StepInvIff` and `ChannelStore.PrependAgreesIff` say exactly
  when; appends and prunes in between do no harm.
- An active-only request with a limit can return fewer active changes than there are, because the limit is applied to
  entries that include inactive ones (`ActiveOnlyRequests.ActiveOnlyFallsShort`,
  `ActiveOnlyRequests.ActiveOnlyEnoughIff`).
- While sequence 1 is skipped there is no low sequence to send, since zero stands for none. A reader that resumes after
  a later entry never gets it (`ResumePoints.FirstSkippedIsMissed`, `ResumePoints.ResumeIsSafeIff`).
- When the store reports a successful write as overwritten, its sequences are released although the document has
  recorded them (`SequenceAccounting.OverwrittenIsBookedTwice`, `SequenceAccounting.DoublyBookedIff`).
- `ShardedClockPartition.Unmarshal` keeps the old offsets. After bytes of another sequence size it reads other
  vbuckets' bytes, and retried writes go astray (`ClockPartition.UnmarshalMisreads`, `ClockPartition.ReadsBackIff`,
  `ClockPartition.RewriteIff`).
- The encoding of a timed set loses sets with a colon in a valid channel name, although it is described as
  round-trippable (`TimedSetCodec.ColonIsLost`, `TimedSetCodec.RoundTripIff`), and reads an unusable vbucket number as
  a number (`TimedSetCodec.BadVbNoIsZero`, `TimedSetCodec.StrictIff`, `TimedSetCodec.ItemReads`).
- A role's channel grant at sequence zero can hide the access given by another role, depending on the order of roles
  (`ClockGrants.ZeroGrantHides`, `ClockGrants.NewWinsIff`, `ClockGrantOrder.SinceUnorderedIff`).
- The secondary trigger of a channel grant depends on the order of the roles (`ClockGrants.TriggerFollowsOrder`,
  `ClockGrants.TriggerUnorderedIff`), and so does a grant that carries a vbucket (`ChannelGrants.VbGrantsAreOrdered`,
  `ChannelGrants.UnorderedIff`).
- A channel granted only at sequence zero can be seen but is not among the inherited channels
  (`ChannelGrants.ZeroGrantIsNotInherited`, `ChannelGrants.SeesInherited`).
- A DCP rollback to before the start of a backfill wraps the received count around and ends the backfill
  (`DcpRollbacks.RollbackEndsBackfill`), and one of a vbucket that was done goes unnoticed
  (`DcpRollbacks.FallingBackIsMissed`). `DcpRollbacks.ActiveIffAlwaysGoing` says exactly when a backfill ends, and
  `DcpRollbacks.TruthIff` exactly when its numbers are right.
- A removal that arrives late reaches continuous feeds as a change: what is listed for them is not the copy that the
  channel cache marks (`LateFeeds.RemovalMissed`, `LateFeeds.ListedAsCachedIff`).

## Model

| member | source | states |
|---|---|---|
| `ChannelCache.ChannelCache.constructor` | db/channel_cache.go:101-140 | A new cache is empty, complete from validFrom on, with default lengths where none are given |
| `ChannelCache.ChannelCache.AddToCache` | db/channel_cache.go:143-173 | Any change, in or out of order, marked as a removal if it is one, leaves one entry per document, each the newest; of these the newest are kept, as many as the maximum length allows, and validFrom moves just past the newest one dropped if any is; a change below validFrom changes nothing |
| `ChannelCache.ChannelCache.AppendChange` | db/channel_cache.go:414-446 | The entries become the old ones with the change replacing every older entry of its document; order, one entry per document and the document index are kept |
| `ChannelCache.ChannelCache.InsertChange` | db/channel_cache.go:462-511 | The same for out-of-sequence changes in all four cases: superseded, replaced in place, moved, opened |
| `ChannelCache.ChannelCache.ScanBack` | db/channel_cache.go:469-497 | The backward scan stops at the document's entry and has found the place that keeps the log ascending |
| `ChannelCache.ChannelCache.PruneCacheLength` | db/channel_cache.go:227-240 | As many of the newest entries are left as the maximum allows, no fewer; validFrom moves just past the newest one dropped; the document index is exact |
| `ChannelCache.ChannelCache.PruneCacheAge` | db/channel_cache.go:244-265 | Only oldest entries that are too old go, and it stops at one that is not, or at the minimum length |
| `ChannelCache.ChannelCache.PrependChanges` | db/channel_cache.go:527-613 | In every branch: exactly the eligible rows that fit go in front, stale rows of cached documents are dropped, validFrom says from where the result is complete |
| `ChannelCache.ChannelCache.CollectFront` | db/channel_cache.go:577-602 | The backward pass picks the newest eligible rows up to the capacity |
| `ChannelCache.ChannelCache.GetCachedChanges` | db/channel_cache.go:285-313 | The first `limit` cached entries after `since`, and the sequence from which they are complete |
| `ChannelCache.ChannelCache.Backfill` | db/channel_cache.go:345-402 | Query rows are fed back if there is room, and joined with the cached entries |
| `ChannelCache.ChannelCache.GetChanges` | db/channel_cache.go:320-402 | A hit is answered from the cache; a miss that is terminated, or whose query fails, says so and leaves the cache as it was; otherwise what is returned and what is fed back |
| `ChannelCache.ChannelCache.JoinResults` | db/channel_cache.go:386-401 | The one-row overlap is dropped and the limit kept |
| `ChannelCache.ResponseExact` | db/channel_cache.go:320-402 | A request against a store the feed has caught up with returns exactly the first `limit` entries of the full channel log after `since`, and leaves the cache in agreement with the store |
| `CacheLimits.AddedKeeps` | db/channel_cache.go:143-161 | Of the newest entries of all documents, the change counted in, exactly as many are cached as there is room for, and none that is older than one left out |
| `CacheLimits.AgePrunedIsAged` | db/channel_cache.go:244-265 | The entries that go are the oldest, each is too old, and the next one is not or the minimum is reached |
| `RepeatRequests.RepeatIsHitIff` | db/channel_cache.go:320-402 | After a request that had to query, the same request is served from the cache if and only if its cached part left room, the query was not cut off below the cached log, and what it found fits in front of it |
| `RepeatRequests.HitIff` | db/channel_cache.go:285-333 | A request is served from the cache exactly if the cache is complete from just after `since` |
| `RepeatRequests.RunRequestIsServed` | db/channel_cache.go:338-402 | A request of a run of the model below, with no other step in between, does what GetChanges does |
| `ChannelCacheSpec.PrependedWellFormed` | db/channel_cache.go:527-613 | A prepend keeps the log ascending, one entry per document, above validFrom and within the maximum length |
| `ChannelCacheSpec.PrependOpens` | db/channel_cache.go:527-613 | From which sequence on the cache answers after a prepend, told from the cache and the query before it |
| `ChannelStore.AddAgrees` | db/channel_cache.go:143-161 | A cache that agrees with the bucket still does after any change has arrived, pruning included |
| `ChannelStore.DropAgrees` | db/channel_cache.go:227-265 | Dropping any number of oldest entries keeps the agreement |
| `ChannelStore.WriteAgrees` | db/channel_cache.go:27-35 | A write to the bucket that has not arrived keeps the agreement |
| `ChannelStore.CachedIsCurrent` | db/channel_cache.go:27-35 | A cached entry whose document's current change has arrived is that current change |
| `ChannelStore.ExactWhenCaughtUp` | db/channel_cache.go:27-35 | With all changes arrived, the cached log is exactly the full channel log from validFrom on |
| `ChannelStore.FeedRowsCover` | db/channel_cache.go:366-384 | Query rows are all current changes of the snapshot up to the sequence they are said to be valid to, however the limit cut them |
| `ChannelStore.PrependSound` | db/channel_cache.go:527-613 | A prepend caches nothing but query rows and loses nothing cached |
| `ChannelStore.PrependAgreesIff` | db/channel_cache.go:366-384 | Prepending rows of an older snapshot keeps the cache in agreement with the bucket if and only if no change that is current and has arrived since then lies in the stretch the prepend is about to open |
| `ChannelAnswer.JoinedLimited` | db/channel_cache.go:386-401 | Joining cut pieces and cutting the joined whole give the same answer |
| `ChannelAnswer.AnswerExact` | db/channel_cache.go:320-402 | From the cache, from the query or from both, the answer is the first `limit` entries (all if 0) of the full channel log after `since` |
| `ChannelAnswer.AnswerOrdered` | db/channel_cache.go:320-402 | While the bucket is ahead of the feed the answer, limited or not, is still ascending, one entry per document, and only of the bucket after `since` |
| `ChannelAnswer.AnswerComplete` | db/channel_cache.go:320-402 | ... and misses no current change that has arrived |
| `ChannelAnswer.JoinedIsPrefix` | db/channel_cache.go:386-401 | With the active-only option the answer is a first part of all there is, however many pages were read |
| `ActiveOnlyRequests.ActiveOnlyEnoughIff` | db/channel_cache.go:269-402 | An active-only request against a cache that agrees with the bucket returns as many active entries as asked for, or all there is, if and only if it hits the cache, or the queried stretch has enough active rows, or the cut at its end or at the limit does no harm |
| `ActiveOnlyRequests.ActiveOnlyFallsShort` | db/channel_cache.go:269-402 | A bucket, a cache that agrees with it and a request for one active change since 0 that gets none although there is one |
| `ActiveOnlyRequests.WholeIsFullLog` | db/channel_cache.go:320-402 | All there is to return is the full channel log after `since` |
| `ChannelAnswer.JoinedEnoughIff` | db/channel_cache.go:386-401 | The same condition on the rows and cached entries that are joined |
| `ChannelCacheRuns.StepInvIff` | db/channel_cache.go:143-613 | Every step, be it a write, an arrival in any order, a prune, or a query starting, reading or finishing, keeps the cache in agreement with the bucket and within its maximum length if and only if it is harmless: it does not finish a query whose prepend misses a change |
| `ChannelCacheRuns.AlwaysAgrees` | db/channel_cache.go:143-161 | In every run the cache agrees with the bucket and is within its maximum length as long as the steps are harmless |
| `ChannelCacheRuns.AgreesThroughoutIff` | db/channel_cache.go:143-161 | A run keeps the cache in agreement throughout if and only if all its steps are harmless |
| `ChannelCacheRuns.CaughtUpExact` | db/channel_cache.go:27-35 | In every such state with all changes arrived the log is the full channel log from validFrom on |
| `ChannelCacheRuns.StaleOnlyIfUnseen` | db/channel_cache.go:27-35 | A cached entry is stale only if the change that replaced it has not arrived |
| `ChannelCacheRuns.RequestInRun` | db/channel_cache.go:320-402 | In a run a request that queries, with other steps between reading the cache, reading the bucket and finishing, is answered in order, one entry per document, from that bucket after `since`, and within the limit misses no current change of it that had arrived when the request began; with active-only it is a first part of the same |
| `ChannelCacheRuns.HitInRun` | db/channel_cache.go:320-333 | So is one that is served from the cache |
| `ChannelCacheRuns.FinishInvIff` | db/channel_cache.go:366-384 | Prepending a query's rows keeps the invariant, however bucket and cache changed in between, if and only if no change is missed |
| `ChannelCacheRuns.OnTimeIsHarmless` | db/channel_cache.go:366-384 | Nothing is missed if the bucket only grows above the end of the query after it was read, whatever appends and prunes do to the cache |
| `ChannelCacheRuns.UndeliveredIsHarmless` | db/channel_cache.go:366-384 | Nor if late changes are delivered only after the prepend |
| `LateChangeLost.LateChangeIsLost` | db/channel_cache.go:338-384 | A run from an empty cache, harmless up to its last step, that ends with everything delivered and a cache that answers for a change it does not have |
| `ChannelQuery.GetChangesInChannelFromQuery` | db/changes_view.go:77-175 | The rows of the full channel log in bounds, or what active-only paging returns |
| `ChannelQuery.PageThrough` | db/changes_view.go:93-163 | Active-only paging ends and returns a gap-free prefix of the range that is the whole range or holds `limit` active rows, and that without its last page would do neither |
| `ChannelQuery.NextPage` | db/changes_view.go:96-150 | One page is the next stretch of the range, and re-querying past its last row gives the rest |
| `ChannelQuery.RangeAdvances` | db/changes_view.go:150-163 | Querying again from just past a row of the range gives exactly the rows after it |
| `ChannelQuery.ActiveCountOne` | db/changes_view.go:93-163 | Neither a deletion nor a removal counts towards an active-only limit |
| `SequenceBuffer.ChangeCache.ProcessEntry` | db/change_cache.go:645-698 | Duplicate, next, ahead, late and too old arrivals: the new state as specified, with the invariant |
| `SequenceBuffer.ChangeCache.AddPendingLogs` | db/change_cache.go:758-776 | The pending loop ends, in the specified state, for any choice of when waiting has lasted too long |
| `SequenceBuffer.ChangeCache.AddToCache` | db/change_cache.go:702-710 | The change is added once and the next sequence moves past it |
| `SequenceBuffer.ChangeCache.AddLate` | db/change_cache.go:681-696 | A late arrival is added as late or unexpected and leaves the skipped list |
| `SequenceBuffer.ChangeCache.InsertPendingEntries` | db/change_cache.go:241-252 | The periodic task does one pending pass |
| `SequenceBuffer.ChangeCache.RemoveSkippedSequences` | db/change_cache.go:902-904 | Abandoned sequences leave the skipped list, and the count is theirs |
| `SequenceBuffer.ChangeCache.LastSequence` | db/change_cache.go:822-826 | Exactly the sequences up to it have been cached, skipped or given up, and everything pending is past the one after it |
| `SequenceBuffer.SkippedSequenceList.Push` | db/change_cache.go:987-1011 | Appends, or is rejected exactly if the sequence is not above all listed |
| `SequenceBuffer.SkippedSequenceList.Remove` | db/change_cache.go:946-978 | The list without that sequence; an error exactly if it was not listed |
| `SequenceBuffer.SkippedSequenceList.RemoveSequences` | db/change_cache.go:953-966 | The list without all of them, and how many were removed |
| `SequenceBuffer.SkippedSequenceList.GetOldest` | db/change_cache.go:934-943 | The minimum of the list, 0 if empty |
| `SequenceBuffer.SkippedSequenceList.GetOlderThan` | db/change_cache.go:1014-1030 | The longest expired front part |
| `SequenceBufferSpec.ApplyKeepsInv` | db/change_cache.go:645-776 | Every event keeps the books and leaves at most the maximum pending |
| `SequenceBufferSpec.DrainKeepsInv` | db/change_cache.go:758-776 | So does every pending pass from a state that may be over the maximum |
| `SequenceBufferSpec.SkipKeepsBooks` | db/change_cache.go:766-770 | Pushing the next sequence onto the skipped list is never rejected and keeps the books |
| `SequenceBufferRuns.Conservation` | db/change_cache.go:645-776 | In every reachable state each sequence between the initial and the next one is cached, skipped or abandoned, and exactly one of these; no other sequence is any |
| `SequenceBufferRuns.QueueAndOrder` | db/change_cache.go:645-776 | Everything pending is above the next sequence, the queue is within its maximum, in-order additions ascend, nothing is cached twice |
| `SequenceBufferRuns.LowSequenceIsStable` | db/changes.go:422-430 | The oldest skipped sequence is the minimum, and all below it has been cached or abandoned |
| `SequenceBufferRuns.NothingUnexpected` | db/change_cache.go:681-696 | Without abandonment the unexpected out-of-order branch is unreachable |
| `SequenceBufferRuns.CompleteArrival` | db/change_cache.go:645-776 | A complete arrival in any order, with duplicates and skips, ends with nothing pending or skipped, the next sequence n + 1 and every sequence cached once |
| `SequenceBufferRuns.ReplayExact` | db/channel_cache.go:414-511 | Whatever the order and whatever is pruned, a channel's log is the newest entry of each document from its validFrom on |
| `SequenceBufferRuns.ReplayOrderIndependent` | db/channel_cache.go:414-511 | With room for its documents, however often they are updated, a channel's log depends only on which changes were added |
| `SequenceBufferRuns.ChannelLogExact` | db/change_cache.go:702-745 | After a complete arrival every channel's log is the newest routed change of each document from its validFrom on |
| `SequenceBufferRuns.ChannelLogsConverge` | db/change_cache.go:702-745 | Two complete arrivals of the same changes leave every channel that has room for its documents with the same log |
| `ChannelContents.InIsCached` | db/change_cache.go:724-743 | After a complete arrival, a document whose latest change is in a channel has an entry in the channel's cache, from validFrom on, with that change's sequence, revision and deleted flag, and not marked as removed |
| `ChannelContents.LeavingIsCached` | db/change_cache.go:724-743 | One that left the channel with its latest change has an entry for that change, marked as removed |
| `ChannelContents.CachedIsLatest` | db/change_cache.go:724-743 | Every cached entry is that of its document's latest change in or out of the channel, and is marked as removed exactly if the document left with it |
| `ChannelContents.LeftEarlierAddsNothing` | db/change_cache.go:724-728 | A later change of a document that left earlier adds nothing |
| `ChannelContents.StarHasAll` | db/change_cache.go:736-743 | The star channel has every document's latest change, no unused sequence and no removal |
| `ChannelContents.NextComesLast` | db/change_cache.go:702-745 | What is passed on reaches each channel that it concerns, in that order |
| `ChannelContents.RoomMeansAll` | db/change_cache.go:702-745 | With room for the documents of a channel its cache answers for everything since the start |
| `BufferChoices.AllWaitedTooLong` | db/change_cache.go:758-776 | If every head of the queue has waited too long, nothing stays pending |
| `BufferChoices.NoneWaitedTooLong` | db/change_cache.go:758-776 | If none has and the queue is within its maximum, nothing is skipped and the next sequence moves only past received ones |
| `BufferChoices.GivenUpWasSkipped` | db/change_cache.go:902-904 | Exactly the listed sequences that were skipped are given up, and the others stay skipped |
| `LateSequences.LateLogs.constructor` | db/channel_cache.go:648-655 | The list starts with one zero entry |
| `LateSequences.LateLogs.GetLateSequencesSince` | db/channel_cache.go:659-700 | Everything listed after the position, the listener moved to the latest entry; an error if the position is gone |
| `LateSequences.LateLogs.InitLateSequenceClient` | db/channel_cache.go:705-712 | One listener more at the latest entry |
| `LateSequences.LateLogs.ReleaseLateSequenceClient` | db/channel_cache.go:715-724 | One listener less at the position |
| `LateSequences.LateLogs.AddLateSequence` | db/channel_cache.go:726-744 | Appends and purges |
| `LateSequences.LateLogs.PurgeLateLogEntries` | db/channel_cache.go:747-754 | Drops the unlistened front, never the last entry |
| `LateSequences.LateSequenceFeed.GetLateFeed` | db/changes.go:799-836 | The polled entries sorted by sequence; the feed moves on, or stays if it failed |
| `LateSequences.LateSequenceFeed.CloseLateFeed` | db/changes.go:838-840 | Releases the feed's position |
| `LateSequences.SortLogs` | db/changes.go:810-812 | A sorted permutation |
| `LateSequenceRuns.PollExact` | db/channel_cache.go:659-700 | A registered feed is never told to roll back, and gets exactly what has arrived since its last poll |
| `LateSequenceRuns.AddIsAddedLate` | db/channel_cache.go:726-744 | The step of the runs that adds a late sequence does what AddLateSequence does |
| `LateSequenceRuns.PurgeInv` | db/channel_cache.go:747-754 | A purge removes no position that a feed is at |
| `LateSequenceRuns.CloseInv` | db/changes.go:838-840 | Closing finds the position and takes no count below zero |
| `LateSequenceRuns.CountsExact` | db/channel_cache.go:628-645 | In every run each listener count is the number of feeds at that position, and every feed's position is listed |
| `LateSequenceRuns.ExactlyOnceInOrder` | db/channel_cache.go:628-769 | In every run a poll succeeds, and then the feed has been given precisely what arrived since it registered, once each, in arrival order |
| `SequenceIds.BeforeIsStrictTotalOrder` | db/sequence_id.go:363-387 | On feed entries the order of sequence IDs, triggers included, is strict and total |
| `SequenceIds.BeforeMeans` | db/sequence_id.go:361-387 | An ID counts as its trigger, or as its own sequence if there is none; of those that count the same the triggered ones come first, in order of their sequences |
| `SequenceIds.LowSequenceHidesOrder` | db/sequence_id.go:317-387 | With low sequences, different IDs can be unordered |
| `ChangesFeed.NextEntry` | db/changes.go:539-583 | One round takes the first entry of the merge of what is left and leaves the rest of it |
| `ChangesFeed.TakeMin` | db/changes.go:564-583 | Clears exactly the entries with the least ID and combines their removals |
| `ChangesFeed.MergeFeeds` | db/changes.go:530-633 | The output is the first `limit` sendable entries of the merge; each is sent with its document, flags, removals, sequence and trigger as merged, and with the low sequence of the iteration; whether a change past the stable sequence was held back is reported |
| `ChangesMerge.LeastFeedIsLeast` | db/changes.go:551-560 | The minimum search finds a least ID, at the first feed that offers it |
| `ChangesMerge.MergedAscending` | db/changes.go:539-633 | The merge is strictly ascending: every ID once |
| `ChangesMerge.MergedIDs` | db/changes.go:539-633 | The merge has exactly the IDs that the feeds carry |
| `ChangesMerge.MergedRepresents` | db/changes.go:564-583 | Removed is the union over all feeds carrying the ID, and allRemoved holds exactly if all of them mark it removed |
| `ChangesFeedExact.SentIsExact` | db/changes.go:530-633 | Without active-only, exactly the IDs that some feed carries and that are stable are sent, strictly ascending |
| `ChangesFeedExact.SentRepresents` | db/changes.go:530-633 | Every entry sent, active-only or not, limited or not, combines all feeds that carry it |
| `ChangesFeedExact.AdvancedIsLatest` | db/changes.go:599-604 | The resume point is the later of where it was and the last ID sent |
| `ChangesFeedExact.ActiveSentIsExact` | db/changes.go:585-590 | With active-only, exactly the stable changes that are neither deleted nor removed from every channel that carries them are sent |
| `ResumePoints.ResumeIsSafeIff` | db/changes.go:422-430 | A reader that resumes at the low sequence sent with an entry if there is one, and at the entry's own sequence otherwise, has been given or has lost for good everything up to there, if and only if the oldest skipped sequence, if any, is not 1 |
| `ResumePoints.FirstSkippedIsMissed` | db/changes.go:422-430 | A run in which 1 is skipped and 2 is sent without a low sequence |
| `ChangesFeedExact.WriteChannelFeed` | db/changes.go:172-232 | A channel's feed has one entry per log entry, with its document, deleted flag and sequence, removed from this channel exactly if the log says so, triggered below the grant and plain from there |
| `ChangesFeedExact.ChannelFeedAscending` | db/changes.go:172-232 | A channel's feed is strictly ascending, across the end of a backfill too |
| `ChangesFeedExact.CutMergeAgrees` | db/changes.go:530-633 | The first n entries of the merge need only the first n entries of each feed |
| `ChangesFeedExact.LimitedFeedsSuffice` | db/changes.go:530-633 | Limiting every channel's answer does not change what is sent under that limit |
| `ChangesFeedExact.IterationExact` | db/changes.go:349-633 | One iteration over channels, late sequences and the user's document sends the first `limit` of exactly the stable changes that these contribute, in order and once each |
| `ChangesFeedExact.IterationComplete` | db/changes.go:349-633 | While buckets are ahead of the feed, of a channel whose cache agrees with its bucket every current change that has arrived, after the resume point and up to the stable sequence, is among what is sent, and the output ascends |
| `ChangesFeedExact.ContributedIsStored` | db/changes.go:172-232 | ... and nothing is sent of it that is not in its bucket after the resume point |
| `ChangesFeedExact.LimitIsAnswered` | db/channel_cache.go:320-402 | The limited answer of a channel is the limit of its whole answer |
| `ChangesFeedExact.LateFeedIsReady` | db/changes.go:814-833 | Ascending late sequences make a feed for it |
| `LateFeeds.PolledFeedIsReady` | db/changes.go:799-836 | What a registered feed polls, sorted, is such a feed: strictly ascending |
| `LateFeeds.ListedAsCachedIff` | db/change_cache.go:724-735 | A late change is listed as the channel cache has it if and only if it does not remove the document from the channel |
| `LateFeeds.LateRemovalIsUnmarked` | db/change_cache.go:724-735 | The channel's feed marks a late removal, the late feed does not, on the same ID |
| `LateFeeds.NeverAllRemoved` | db/changes.go:564-583 | Merged with a late feed that carries it, a change never counts as removed from all channels |
| `LateFeeds.RemovalMissed` | db/change_cache.go:724-735 | A late removal that a continuous active-only feed sends as a change |
| `ChangesFeedExact.UserFeedIsReady` | db/changes.go:298-318 | So does the entry for the user's document, which carries its name and the plain sequence |
| `SequenceAccounting.SequenceHolder.AssignSequence` | db/crud.go:1025-1054 | The document gets a sequence above its own; the previous allocation becomes unused; too small ones are released; the updated document lists exactly what the holder would otherwise have to release |
| `SequenceAccounting.SequenceHolder.ReleaseAll` | db/crud.go:1250-1263 | After a failed write, everything allocated is released |
| `SequenceAccounting.AssignIsRun` | db/crud.go:1025-1054 | What AssignSequence does is a run of the steps below |
| `SequenceAccounting.FailedAssignIsRun` | db/crud.go:1037-1040 | So is what it does when the allocator fails, with the release that follows |
| `SequenceAccounting.ReleaseIsAllHeld` | db/crud.go:1250-1263 | What ReleaseAll releases is all the writer holds |
| `SequenceAccounting.StepInv` | db/crud.go:918-1054 | Every step of every writer keeps the books |
| `SequenceAccounting.CommitOrdered` | db/crud.go:1052-1053 | A write raises the document's sequence and lists unused sequences strictly ascending below it |
| `SequenceAccounting.NoSequenceLost` | db/crud.go:1025-1263 | In any interleaving, at all times, every issued sequence is held by exactly one writer, recorded, released or known to be impossible to release; a writer holds it exactly if it is none of the others |
| `SequenceAccounting.StoredIsHeld` | db/crud.go:1052-1054 | In every run the document that a write stores, be it reported as overwritten or not, lists exactly the sequences that its writer held |
| `SequenceAccounting.RecordedIsListed` | db/crud.go:1052-1054 | In every run the recorded sequences are those from the start and those listed in a document when some earlier step stored it |
| `SequenceAccounting.NothingLost` | db/crud.go:1025-1263 | In every run each issued sequence is held by a writer at work, listed in a document that was stored, released, or known to be impossible to release |
| `SequenceAccounting.AssignedIsStored` | db/crud.go:1025-1054 | The document that AssignSequence updated is the one that the write then stores |
| `SequenceAccounting.DoublyBookedIff` | db/crud.go:1250-1268 | A sequence is both recorded and released, or meant to be, if and only if an earlier write that held it was reported as overwritten |
| `SequenceAccounting.OverwrittenIsBookedTwice` | db/crud.go:1250-1268 | A run of one writer that ends with its sequence in the document and announced as unused |
| `SequenceAccounting.AllSettledInTheEnd` | db/crud.go:1025-1263 | With all writers done and no release failed, the issued sequences are the recorded and released ones |
| `SequenceAccounting.SequencesIncrease` | db/crud.go:1025-1054 | In every run every write of a document raises its sequence |
| `ClockPartition.ShardedClockPartition.constructor` | base/sharded_sequence_clock.go:418-430 | All vbuckets at zero, the index stored |
| `ClockPartition.ShardedClockPartition.ForBytes` | base/sharded_sequence_clock.go:432-443 | Stored bytes give back the index, the vbuckets and the clock they stand for |
| `ClockPartition.ShardedClockPartition.Init` | base/sharded_sequence_clock.go:445-451 | Every vbucket's 16-bit offset is that of its slot |
| `ClockPartition.ShardedClockPartition.GetSequence` | base/sharded_sequence_clock.go:526-582 | The vbucket's entry of the clock as a map; for a vbucket of another partition, what is stored at the start of the buffer, at the smallest size the index |
| `ClockPartition.ShardedClockPartition.SetSequence` | base/sharded_sequence_clock.go:464-524 | The clock as a map with that one entry changed, across any change of width, index and vbuckets unchanged; the width changes only for a sequence too large for it, to the least that the sequence does not fill; for a vbucket of another partition, the start of the buffer overwritten |
| `ClockPartition.IndexReplaced` | base/sharded_sequence_clock.go:464-471 | Such a write at the smallest size replaces the index and nothing else |
| `ClockPartition.SizeReplaced` | base/sharded_sequence_clock.go:464-471 | At larger sizes it overwrites the size |
| `ClockPartition.ShardedClockPartition.Resize` | base/sharded_sequence_clock.go:612-643 | The clock is unchanged and the new size holds the sequence |
| `ClockPartition.Widened` | base/sharded_sequence_clock.go:623-636 | Moving the sequences from last to first within the extended buffer loses none |
| `ClockPartition.Relocate` | base/sharded_sequence_clock.go:633-635 | Read, zero, write at the new place, which may overlap the old one |
| `ClockPartition.NewSize` | base/sharded_sequence_clock.go:614-621 | The least size above one that the sequence does not fill, which is larger and holds it |
| `ClockPartition.ShardedClockPartition.RescaleOffsets` | base/sharded_sequence_clock.go:637-640 | Rescaling the offset map in any order gives the offsets of the new size |
| `ClockPartition.ShardedClockPartition.Unmarshal` | base/sharded_sequence_clock.go:457-461 | The partition is valid afterwards if and only if the size did not change or there is at most one vbucket |
| `ClockPartition.ReadsBackIff` | base/sharded_sequence_clock.go:457-461 | With the offsets of one size every clock stored at another size reads back if and only if the sizes are the same or there is at most one vbucket |
| `ClockPartition.ShardedClockPartition.Marshal` | base/sharded_sequence_clock.go:453-455 | Bytes that stand for the clock |
| `ClockPartition.ShardedClockPartition.SetSequences` | base/sharded_sequence_clock.go:334-337 | A run of updates is the same run on the map |
| `ClockPartition.ShardedClockPartition.Reapply` | base/sharded_sequence_clock.go:341-353 | The retry after a failed write yields the stored clock with the updates applied, provided the size did not change |
| `ClockPartition.RewriteIff` | base/sharded_sequence_clock.go:341-353 | With the offsets of one size the retry of every write to every clock stored at another is right if and only if the sizes are the same or there is at most one vbucket |
| `ClockPartition.UnmarshalMisreads` | base/sharded_sequence_clock.go:457-461 | Bytes of another size, read at the old offsets, give a sequence nobody set |
| `ClockPartition.RepresentsOne` | base/sharded_sequence_clock.go:397-416 | Bytes stand for one index and one clock |
| `ClockPartition.LayoutIs` | base/sharded_sequence_clock.go:397-416 | After three bytes for index and size the sequences follow in vbucket order without gaps, each big-endian in twice `size` bytes |
| `ClockPartition.IndexBytes` | base/sharded_sequence_clock.go:592-599 | The index is in the first two bytes, the more significant one first |
| `ClockPartition.LastSetWins` | base/sharded_sequence_clock.go:464-471 | After any run of updates a vbucket has the last sequence set for it |
| `ClockPartition.NeverSetKept` | base/sharded_sequence_clock.go:464-471 | A vbucket that was not set keeps its sequence |
| `ClockPartition.UpdatedTwice` | base/sharded_sequence_clock.go:341-353 | Applying the same updates again changes nothing |
| `ClockPartition.GetSequenceForOffset` | base/sharded_sequence_clock.go:530-582 | The big-endian number in the bytes, at each of the four widths |
| `ClockPartition.SetSequenceForOffset` | base/sharded_sequence_clock.go:473-524 | Overwrites exactly those bytes with the big-endian encoding |
| `ClockPartitionLayout.NoWrap` | base/sharded_sequence_clock.go:445-451 | Up to 1024 vbuckets no 16-bit offset wraps |
| `ClockPartitionLayout.Rescaled` | base/sharded_sequence_clock.go:637-640 | The 16-bit rescaling gives the offset at the new size |
| `ClockPartitionLayout.SetRepresents` | base/sharded_sequence_clock.go:464-471 | Writing one slot changes that sequence only |
| `BigEndian.RoundTrip` | base/sharded_sequence_clock.go:490-582 | What fits the width reads back |
| `TimedSets.TimedSet.AddChannel` | channels/timed_set.go:185-193 | Replaces an entry exactly if the sequence is non-zero and earlier, or the entry has none |
| `TimedSets.TimedSet.AddAtSequence` | channels/timed_set.go:201-218 | Channel by channel, in any order, the earliest sequence wins, vbucket entries replace; says whether anything changed |
| `TimedSets.TimedSet.Add` | channels/timed_set.go:196-198 | The same without a lower bound |
| `TimedSets.MergeMeans` | channels/timed_set.go:201-218 | For each channel: a vbucket entry replaces; another counts from no earlier than the lower bound and replaces what is later or at zero, unless it is at zero itself |
| `TimedSetCodec.String` | channels/timed_set.go:325-338 | Prints the entries with a sequence, sorted, whatever the order of the walk |
| `TimedSetCodec.PrintIsUnique` | channels/timed_set.go:325-338 | A set has one text: the order in which the map is walked does not show |
| `TimedSetCodec.ItemsDiffer` | channels/timed_set.go:328-334 | Different channels never print the same item |
| `TimedSetCodec.TimedSetFromString` | channels/timed_set.go:342-381 | Parses item by item, failing on malformed, duplicate or invalid ones |
| `TimedSetCodec.RoundTripIff` | channels/timed_set.go:325-381 | Parsing the text gives back exactly the printed entries if and only if all their names are valid and without a colon |
| `TimedSetCodec.PrintedLike` | channels/timed_set.go:325-338 | What is printed for a set with a plain entry, a vbucket entry and one at sequence zero, and that it parses |
| `TimedSetCodec.ReprintParses` | channels/timed_set.go:325-381 | Whatever parses, prints and parses to the same entries again |
| `TimedSetCodec.ColonIsLost` | channels/timed_set.go:346-349 | A set whose text does not parse |
| `TimedSetCodec.StrictIff` | channels/timed_set.go:359-369 | The parser agrees with one that minds the error of the vbucket number if and only if it fails or every vbucket text is a 16-bit number |
| `TimedSetCodec.ItemReads` | channels/timed_set.go:359-369 | What each item of a parsed text becomes: its vbucket number, zero if that is no number, 65535 if it is too large |
| `TimedSetCodec.BadVbNoIsZero` | channels/timed_set.go:364-369 | A text with a vbucket number that is none |
| `Texts.SplitJoin` | channels/timed_set.go:337-349 | Splitting undoes joining |
| `Texts.ParseDecimal` | channels/timed_set.go:330-372 | A printed number within the limit parses back |
| `Texts.OneArrangement` | channels/timed_set.go:336 | A set of strings has one sorted arrangement |
| `ChannelGrants.InheritedChannels` | auth/user.go:310-317 | The own channels with those of each role merged in at the role's grant |
| `ChannelGrants.ComputeSequenceChannelsForPrincipal` | db/crud.go:1555-1580 | All rows merged into an empty set |
| `ChannelGrants.InheritedIsEarliest` | auth/user.go:310-317 | With global grants, a channel's grant is the earliest of the own one and, over all roles, the later of role grant and channel grant |
| `ChannelGrants.InheritedMeans` | auth/user.go:310-317 | With global grants, a channel is inherited if the user has it or a role gives it at a sequence that is not zero, no later than any of these, and since one of them |
| `ChannelGrants.ComputedMeans` | db/crud.go:1555-1580 | What documents grant with global grants is every channel of a row at a sequence that is not zero, since the least of these |
| `ChannelGrants.LastReplacingCounts` | channels/timed_set.go:204-216 | With grants that carry vbuckets, in a given order, the last of these takes the place of the own grant, all before it is irrelevant, and the earliest of it and what follows is the grant |
| `ChannelGrants.InheritedUnordered` | auth/user.go:263-317 | For two orders of the same roles the inherited channels are the same, as far as the order cannot show |
| `ChannelGrants.UnorderedIff` | auth/user.go:263-317 | A channel's grant is the same for every order if and only if no grant carries a vbucket, or all that do are the same and no other is earlier |
| `ChannelGrants.GlobalUnordered` | auth/user.go:263-317 | Nor does it matter to global grants whether one comes twice |
| `ChannelGrants.VbGrantsAreOrdered` | channels/timed_set.go:204-207 | It does to grants with vbuckets |
| `ChannelGrants.CanSeeChannel` | auth/user.go:280-290 | The user or a role has the channel or the star |
| `ChannelGrants.SeesInherited` | auth/user.go:280-317 | The channel or the star is inherited exactly if the user can see the channel, except one granted only by roles and only at sequence zero |
| `ChannelGrants.ZeroGrantIsNotInherited` | auth/user.go:280-317 | A role and a channel at sequence zero: seen, but not inherited |
| `ClockGrants.CalculateRoleChannelGrant` | auth/user.go:501-533 | Existing exactly if both grants are; otherwise a grant past the clock, the later one if both are, with the other as trigger |
| `ClockAccess.UpdateIfEarlier` | base/sharded_sequence_clock.go:118-125 | Gives way exactly to an earlier sequence, or if empty |
| `ClockAccess.CanSeeChannelSinceForClock` | auth/user.go:450-496 | An own channel at or before the clock, or a role with such a channel, makes the channel visible since then or before; every answer is the user's own grant or a role's, counted from the later of the two or from the one past the clock; with no grant at sequence zero each one is enough. The answer is that of the two running minima over the grants |
| `ClockAccess.AnswerMeans` | auth/user.go:450-496 | The same of the answer for any list of roles, from the channels of the user and of the roles |
| `ClockGrants.ExistingAreUsable` | base/sharded_sequence_clock.go:127-137 | A grant at or before the clock is never at sequence zero |
| `ClockGrants.ExistingWins` | auth/user.go:486-490 | If there is a grant at or before the clock, the least of those is the answer |
| `ClockGrants.NewWinsIff` | auth/user.go:450-496 | Otherwise the least later one is, if and only if no grant at sequence zero in its vbucket or below is looked at after it |
| `ClockGrants.NoGrantNoAccess` | auth/user.go:494-495 | Without a usable grant there is no access |
| `ClockGrants.AnswerUnordered` | auth/user.go:450-496 | With all grants non-zero, for two lists of the same roles, whether the user sees the channel and since when is the same |
| `ClockGrantOrder.SinceUnorderedIff` | auth/user.go:450-496 | Grants at sequence zero included, whether the user sees the channel and since when is the same for every order of the roles if and only if the user saw it already, or no role gives it newly at a usable sequence, or none gives it at sequence zero in the vbucket of the least grant or a lower one |
| `ClockGrants.TriggerUnorderedIff` | auth/user.go:450-496 | ... and the trigger is the same for every order if and only if there is an existing grant, or the user's own is the least, or all at the least position carry the same trigger |
| `ClockGrants.TriggerFollowsOrder` | auth/user.go:466-484 | Two roles whose order decides the trigger |
| `ClockGrants.ZeroGrantHides` | auth/user.go:466-484 | Two roles, in one order visible since (5, 9), in the other not at all |
| `DcpBackfill.BackfillStatus.Init` | base/dcp_feed.go:663-690 | The end of each vbucket's backfill, zero if none is given; in backfill are those that end past their start, active exactly if one is; the expected total in 64 bits, and the books in order unless the end sequences overflow |
| `DcpBackfill.BackfillStatus.UpdateStats` | base/dcp_feed.go:704-739 | The new state as specified, in 64-bit arithmetic |
| `DcpBackfill.DCPReceiver.constructor` | base/dcp_feed.go:414-446 | A feed that starts with its books in order |
| `DcpBackfill.DCPReceiver.UpdateSeq` | base/dcp_feed.go:270-288 | Records the position and, while in backfill, the progress |
| `DcpBackfill.DCPReceiver.UpdateAll` | base/dcp_feed.go:270-288 | A run of updates is the specified run |
| `DcpBackfillSpec.UpdateKeepsBooks` | base/dcp_feed.go:704-739 | For every update of a backfill under way, rollbacks included, what is received is the total modulo 2^64, and the backfill ends exactly when every vbucket has once been done or the total falls below zero |
| `DcpRollbacks.ActiveIffAlwaysGoing` | base/dcp_feed.go:270-288 | Over every run, rollbacks included, the backfill is active if and only if every state so far had a vbucket not yet done and a total that was not negative |
| `DcpRollbacks.TruthIff` | base/dcp_feed.go:704-739 | After every run, rollbacks included, the number received and the active flag are what the positions say if and only if the total never fell below zero and no vbucket that was done stands below its end |
| `DcpBackfillSpec.TotalNotNegative` | base/dcp_feed.go:242-288 | The total is not negative while no vbucket in backfill is before its start |
| `DcpBackfillSpec.BackfillIsExact` | base/dcp_feed.go:704-739 | Over every run of forward updates, received is the sum of min(position, end) - start over the vbuckets in backfill, and active holds exactly while one has not reached its end |
| `DcpRollbacks.RollbackEndsBackfill` | base/dcp_feed.go:242-263 | A rollback to before the start ends a backfill of which nothing was received |
| `DcpRollbacks.FallingBackIsMissed` | base/dcp_feed.go:242-288 | A vbucket that was done is rolled back to below its end, and the backfill ends without it |

## Left out

- Reading the bucket, N1QL and views, DCP connections, HTTP, authentication and sessions: a channel query is the rows of the full channel log in bounds, a document write an atomic compare-and-swap.
- Logging, statistics and cache utilisation counters.
- Clocks: how long an entry has waited, or whether it is too old, is a parameter.
- Locks: each locked region is one step; the view lock allows one channel query in flight at a time.
- `channelCache.Remove` (purging documents) and `changeCache.Clear`, which drops pending entries but keeps the received set.
- `logsDisabled`, the RecentSequences gap filling of `DocChangedSynchronous`, principal documents and the query in `CleanSkippedSequenceQueue` that finds skipped sequences in the bucket.
- A document that lists the star channel among its own channels, next to the star channel log.
- Overflow of 64-bit change sequences: they are unbounded naturals, except where a counter wraps (listener counts, backfill, clock partitions).
- Vector (vbucket) sequence IDs, document bodies and conflicts in feed entries, termination, waiting for changes and the backfill trigger rules between iterations of the changes feed.
- Revision trees, attachments, import, the sync function, and the upgrade and metadata-only paths of a document update.
- The sequence allocator: it gives out some number that it has not given out before.
- `InheritedChannelsForClock`, `SyncSequenceClock` and the JSON forms of timed sets.
- More than 1024 vbuckets in one clock partition.
- Checkpoint persistence and snapshot tracking of the DCP feed.
- Writes between the pages of one active-only query: a query reads the bucket as it is at one moment.
- SequenceBuffer.ChangeCache.AddToCache: records the addition instead of calling the channel caches; `SequenceBufferRuns` routes the additions to channels and replays them.
- ClockPartition.ShardedClockPartition.Reapply: requires that the stored sequence size is the one in memory, because otherwise Unmarshal leaves wrong offsets; RewriteIff states when that matters.
- ClockPartition.ShardedClockPartition.SetSequence: requires a vbucket of the partition, or any vbucket in it, because otherwise the buffer may be too short to write to.
- ChannelCacheRuns.AlwaysAgrees: requires harmless steps, because otherwise it is false, as AgreesThroughoutIff states.
- SequenceBufferRuns.ChannelLogsConverge: requires room for all documents in the channel log, because where pruning cuts depends on the order; ChannelLogExact needs none.
- ClockGrants.AnswerUnordered: requires non-zero grants, because otherwise it is false; NewWinsIff has the exact condition for a given order, SinceUnorderedIff that for all orders.
