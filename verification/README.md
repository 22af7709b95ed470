# Verified core of the API gateway

A Dafny model of the parts of the gateway that keep state or decide something hard: the
per-order payment lock, the in-memory rate limiter, the verification-code table, request
body storage and its counters, the Ogg duration scanner, video task billing, multi-key
channels, upstream model reconciliation and its batched scan, the price difference
report and the models.dev converter. `dafny verify dfyconfig.toml` checks the project.

How the source is rendered:

- Concurrent code (`OrderLocks`, `StorageAccounting`) is a step relation over any number
  of threads, one step per mutex operation, map access, counter change or database call.
  Properties hold in every state of every run.
- Objects the source updates in place are classes (`Limiter`, `Table`, `File`,
  `MemoryStorage`, `DiskStorage`, `Ledger`, `MultiKeyChannel`, `UpstreamChannel`). Their
  methods are proved equal to functions on values, and the laws are lemmas about those
  functions.
- Loops of the source are loops with invariants. Loops over Go maps pick keys in
  arbitrary order, so their results do not depend on iteration order.
- Clock readings, random data, database outcomes, upstream answers, JSON parsing of a key
  list and regular-expression matching are parameters. `float64` amounts are reals.
- `Counting`, `Text`, `Bytes`, `Files`, `DiskCache`, `Approximate` and `Wrappers` hold what
  several modules share.

Where the code does not do what one would expect, the model keeps the code, exhibits a
failing case and proves the exact condition:

- The rate limiter's sweep forgets accepted requests when a rule's window is longer than
  the expiration plus one second, provided a sweeper runs at all
  (`RateLimiter.SweepUnobservableIff`).
- A body limit equal to the largest 64-bit integer wraps when one is added, and a
  non-empty body is then stored empty (`BodyStorage.CreateKeepsBodyIff`).
- An empty read at the end of the data answers differently in memory and on disk
  (`BodyStorage.KindsAgree`).
- Two racing creates can pass the disk limit check together and reach twice the limit, and
  one streamed body longer than declared passes it alone (`StorageAccounting.LimitIff`).
- Marking tasks failed in bulk refunds nothing, and a later failure report does not make
  up for it (`VideoBilling.BulkFailLosesCharge`).
- Deleting the auto-disabled keys of a channel whose keys are all auto-disabled brings
  them all back enabled, because an empty key text is not written
  (`MultiKeyLaws.DeleteDisabledViewIff`).
- A deletion that leaves a blank key at either end of the list, a key that spans lines, or
  keys that together read as a JSON array of other keys, shows other keys and statuses than were left
  (`MultiKeyLaws.DeleteKeyViewIff`, `DeleteDisabledViewIff`, `BlankLineBreaks`), and can
  leave times and reasons out of range (`MultiKeyLaws.DeletionInvIff`).
- Appending to a key text that opens like a JSON array but does not parse sees no old
  keys (`KeyAppend.AppendSeesKeysIff`), and old keys that span lines are split when the
  result is stored (`KeyAppend.AppendStoredIff`).
- Adding an upstream model that bears the name of a `regex:` ignore rule deletes the
  rule, so detection reports what the rule was hiding (`ReconcileLaws.ConvergesIff`).
- A published value `null` or `"same"`, or a repeated channel name, can hide a price
  difference (`PriceDifferences.MissedIff`).
- A cost below one millionth of a dollar is published as free (`ModelsDev.RoundsToZeroIff`).

## Model

| member | source | states |
|---|---|---|
| OrderLocks.RunInv | controller/topup.go:339-378 | in every state of every run of any number of threads: the table is injective, createLock has at most one holder, every attached thread's order is in the table under the mutex it locked, and every entry's refCount and lock bit equal the threads they account for |
| OrderLocks.MutualExclusion | controller/topup.go:349-378 | at most one thread is between lock and unlock for an order, and all threads counted on an order use one mutex object |
| OrderLocks.UnlockFindsItsMutex | controller/topup.go:364-378 | UnlockOrder's lookup, made without createLock, always finds the mutex this thread locked and still holds; the early return and an unlock of an unlocked mutex are unreachable |
| OrderLocks.TableLifecycle | controller/topup.go:339-378 | refCount is the number of threads between increment and decrement; an order is in the table exactly while some thread is attached, and outside createLock exactly while refCount is positive |
| OrderLocks.EmptyWhenIdle | controller/topup.go:339-378 | when all threads are idle the table is empty and createLock free |
| OrderLocks.AtMostOnceCompletion | controller/topup.go:459-489 | however many duplicate success callbacks race, an order is completed at most once, and exactly once if it is no longer pending |
| OrderLocks.OnlyEpayCompleted | controller/topup.go:459-489 | in every state of every run only Epay orders have been completed |
| OrderLocks.CanComplete | controller/topup.go:459-489 | from every reachable state with a callback about to read a pending Epay order the run has a continuation in which that order is completed, exactly once |
| OrderLocks.NoDeadlock | controller/topup.go:349-378 | while some thread is not idle, some thread can act |
| OrderLocks.StepShortensWork | controller/topup.go:349-378 | every action of a thread shortens the total work left |
| OrderLocks.SchedulesAreFinite | controller/topup.go:349-378 | without new arrivals a schedule has at most as many steps as work is left |
| OrderLocks.StuckOnlyWhenDrained | controller/topup.go:349-378 | a reachable state in which no thread can act has only idle threads and an empty table |
| RateLimiter.Limiter.constructor | common/rate-limit.go:14-26 | an empty store, the lifetime in whole seconds, and a sweeper exactly for a positive lifetime |
| RateLimiter.Limiter.Request | common/rate-limit.go:45-70 | one request against the stored queue, including the first request of a key and the shift of a full queue, as RequestOn |
| RateLimiter.Limiter.ClearExpiredItems | common/rate-limit.go:28-43 | the sweep deletes exactly the keys with an empty queue or a last request older than the expiration, as SweepOn |
| RateLimiter.RecentIsSuffix | common/rate-limit.go:45-70 | on a sorted log, fewer than `cap` recent requests if and only if the log is shorter than `cap` or its `cap`-th last entry has left the window |
| RateLimiter.RequestRefines | common/rate-limit.go:45-70 | the bounded queue answers as the ideal unbounded log does and keeps tracking it |
| RateLimiter.RunRefines | common/rate-limit.go:28-70 | over every run of requests and sweeps with a non-decreasing clock, and windows within expiration + 1 unless nothing is swept, all answers equal those of the ideal sliding-window log |
| RateLimiter.SweepForgets | common/rate-limit.go:28-43 | a window longer than expiration + 1 has a run in which the sweep changes an answer |
| RateLimiter.SweepUnobservableIff | common/rate-limit.go:14-70 | for every lifetime: no run can tell the limiter from the ideal log if and only if no sweeper was started or every window is at most expiration + 1 |
| RateLimiter.AcceptedIsLog | common/rate-limit.go:45-70 | the times the limiter accepted are exactly the ideal log |
| RateLimiter.NoWindowOverfull | common/rate-limit.go:45-70 | over every run, no interval of the window's length holds more accepted requests than the limit |
| RateLimiter.AcceptedIff | common/rate-limit.go:45-70 | over every run a request is accepted if and only if fewer than the limit, or none for a limit of 0, were accepted in the last `duration` seconds |
| VerificationTable.Table.Register | common/verification.go:59-69 | stores code and time under purpose + key and sweeps when the map has grown beyond its maximum size |
| VerificationTable.Table.Verify | common/verification.go:71-80 | true exactly for an unexpired entry with this code |
| VerificationTable.Table.VerifyAndDelete | common/verification.go:82-96 | as Verify, and the entry goes exactly on success |
| VerificationTable.Table.Delete | common/verification.go:98-102 | removes that entry only |
| VerificationTable.Table.RemoveExpiredPairs | common/verification.go:105-112 | removes exactly the expired entries |
| VerificationTable.PurposesDisjoint | common/verification.go:19-25 | two (purpose, key) pairs share a map key only if they are the same pair, although the prefixes are plain concatenation |
| VerificationTable.RunCleaned | common/verification.go:59-112 | over every run, the table equals a never-cleaned one up to entries already expired |
| VerificationTable.CleaningUnobservable | common/verification.go:59-112 | every answer of every run is the one a never-cleaned table gives |
| VerificationTable.EntryHasRegistration | common/verification.go:59-112 | every entry stems from the last registration under its key, with no deletion or consumption since |
| VerificationTable.RegisterCleans | common/verification.go:59-69 | a registration leaves at most ten entries, or only ones less than ten minutes old |
| VerificationTable.AcceptedIff | common/verification.go:71-96 | over every run a code is accepted if and only if the registration for that purpose and key which nothing has replaced, deleted or used since has this code and is less than ten minutes old |
| VerificationTable.ConsumeUsesRegistration | common/verification.go:82-96 | every successful verify-and-delete uses a registration of the same purpose, key and code, less than ten minutes old |
| VerificationTable.NoReplay | common/verification.go:82-96 | two successful verify-and-deletes never use the same registration |
| Files.File.Read | common/audio.go:208-217 | the bytes from the cursor on, as many as asked for or as are left; end of file beyond the end, but not for an empty read |
| Files.File.Seek | common/audio.go:222-248 | a seek from the start, the cursor or the end; it fails exactly before the start of the file and then moves nothing |
| OggScanner.PageSize | common/audio.go:241-245 | the loop over the segment table computes its sum |
| OggScanner.SkipSegments | common/audio.go:234-248 | after a page header: reads the segment table and seeks over the payload, failing on a short table |
| OggScanner.GetOpusDuration | common/audio.go:196-254 | the read/seek loop ends on every byte sequence and returns ScanFrom over 48000 |
| OggScanner.ScanIsMaximum | common/audio.go:204-253 | on every byte sequence the result is the maximum of 0 and the signed granules at the visited headers, and is attained |
| OggScanner.GranuleRoundTrip | common/audio.go:228-236 | the scanner reads back the signed granule and segment count that an encoded page header holds |
| OggScanner.PageLayout | common/audio.go:219-236 | an encoded page is laid out as section 6 of RFC 3533 says: pattern, granule from byte 6, segment count at byte 26, table, body |
| OggScanner.SkipsWholePage | common/audio.go:234-248 | from the start of an encoded page the scanner continues exactly at its end |
| OggScanner.NoSyncAcross | common/audio.go:219-226 | bytes without the capture pattern cannot form one with the page that follows them |
| OggScanner.ScanStream | common/audio.go:204-253 | on encoded pages with pattern-free bytes before, between and after them, the scanner visits exactly the page starts and folds exactly their granules |
| OggScanner.StreamMaximum | common/audio.go:204-253 | hence such a file (section 6 of RFC 3533) yields the largest granule of its pages, never below 0 |
| BodyStorage.MemoryStorage.constructor | common/body_storage.go:37-45 | a fresh memory storage holds the data with the cursor at 0 |
| BodyStorage.MemoryStorage.Read | common/body_storage.go:47-54 | reads from the cursor, end of data, closed storage, as MemoryStep |
| BodyStorage.MemoryStorage.Seek | common/body_storage.go:56-63 | the three origins, negative targets, closed storage |
| BodyStorage.MemoryStorage.Bytes | common/body_storage.go:74-81 | the whole body, cursor in place |
| BodyStorage.MemoryStorage.Close | common/body_storage.go:65-72 | closes, also repeatedly |
| BodyStorage.DiskStorage.constructor | common/body_storage.go:100-129 | a fresh disk storage holds the data with the cursor rewound |
| BodyStorage.DiskStorage.Read | common/body_storage.go:169-176 | reads through the file, as DiskStep |
| BodyStorage.DiskStorage.Seek | common/body_storage.go:178-185 | seeks through the file, as DiskStep |
| BodyStorage.DiskStorage.Bytes | common/body_storage.go:198-230 | rewinds, reads everything and puts the file offset back where it was |
| BodyStorage.DiskStorage.Close | common/body_storage.go:187-196 | closes, also repeatedly |
| BodyStorage.KindsAgree | common/body_storage.go:47-81 | over every sequence of operations both kinds reach the same state, and give the same answers if and only if no empty read happens at the end of the data |
| BodyStorage.NonEmptyReadsAgree | common/body_storage.go:169-230 | so with non-empty reads the kinds cannot be told apart |
| BodyStorage.ReadAnswers | common/body_storage.go:47-54 | for both kinds a non-empty read of an open body answers the next bytes, as many as asked for or as are left, and end of data when none are |
| BodyStorage.ReadingGivesBody | common/body_storage.go:169-176 | for both kinds, reading with buffers of any positive sizes up to the end of data gives exactly the body, and more reads than bytes reach the end |
| BodyStorage.SeekAnswers | common/body_storage.go:56-63 | for both kinds, where a seek from the start, the cursor and the end lands, and that a target before the start is refused without moving |
| BodyStorage.ContentsAndClose | common/body_storage.go:187-230 | for both kinds, the whole body with the cursor in place; once closed everything is refused and closing again changes nothing |
| BodyStorage.CreateKeepsBodyIff | common/body_storage.go:132-166 | without I/O errors a create from a reader reports too large exactly when the body exceeds the limit and otherwise stores exactly the body, if and only if the limit is below the largest 64-bit integer or the body is empty |
| BodyStorage.BytesOnDiskIff | common/body_storage.go:241-260 | known bytes go to disk if and only if the cache is on, the body is not below the threshold and fits beside what is there, and the file can be written |
| BodyStorage.StreamRoute | common/body_storage.go:262-303 | a stream goes straight to disk if and only if the cache is on and its declared length is known, not below the threshold and fits; otherwise it is read first and stored like known bytes |
| BodyStorage.RoutesStoreSameBody | common/body_storage.go:241-303 | creating from bytes and from a reader, on disk or in memory or after a fallback, stores the same bytes |
| StorageAccounting.RunInv | common/body_storage.go:37-72 | in every state of every interleaving of creates and closes, each counter equals the open storages plus what threads have added or not yet taken off |
| StorageAccounting.CreateStepInv | common/body_storage.go:241-303 | every action of a create keeps that balance |
| StorageAccounting.CloseStepInv | common/body_storage.go:187-196 | every action of a close keeps it, also when several threads close one storage |
| StorageAccounting.QuiescentCountersExact | common/disk_cache_config.go:109-134 | when nothing is in flight the counters are the number and total size of the open storages |
| StorageAccounting.CountersNeverNegative | common/disk_cache_config.go:115-134 | no counter is ever negative, so the clamps never run |
| StorageAccounting.CreateStores | common/body_storage.go:241-260 | from every reachable state an idle thread can create a storage for a body of any size; it is then open and counted, on disk exactly when enabled, not below the threshold and fitting, else in memory |
| StorageAccounting.CloseReleases | common/body_storage.go:187-196 | from every reachable state an idle thread can close an open storage nobody is closing; exactly its share is then off the counters |
| StorageAccounting.DiskUsageWithinLimit | common/disk_cache_config.go:170-177 | with one create at a time and bodies no longer than declared, disk usage never exceeds the limit |
| StorageAccounting.LimitIff | common/disk_cache_config.go:170-177 | for every config: disk usage stays within the limit over all runs with at most n creates at once if and only if nothing can go to disk, or n is 0, or n is 1 and no body is longer than declared |
| StorageAccounting.RaceExceedsLimit | common/body_storage.go:241-303 | under every config with room, two creates that both check before either counts reach twice the limit |
| StorageAccounting.OverrunExceedsLimit | common/body_storage.go:262-303 | under every config with room, a single streamed body longer than its declared length ends above the limit |
| VideoBilling.Ledger.UpdateVideoSingleTask | controller/task_video.go:127-276 | one poll: status switch, re-pricing on success, storing the row, refund on failure, and the failure of each database call, as PollOn |
| VideoBilling.Ledger.DecreaseUserQuota | model/user.go:1247-1262 | rejects a negative amount, otherwise takes it off if the database call succeeds |
| VideoBilling.Ledger.IncreaseUserQuota | model/user.go:1222-1237 | rejects a negative amount, otherwise adds it if the database call succeeds |
| VideoBilling.PollConservesIff | controller/task_video.go:127-276 | a poll keeps "charged so far equals what is due" if and only if it is Safe, a condition on the row, the answer and the calls' outcomes |
| VideoBilling.RunConserves | controller/task_video.go:127-276 | over every run of polls with stored rows, working refunds and final failures, the user has paid exactly the quota on the row, or nothing once it failed, even when an extra charge fails |
| VideoBilling.FailedMeansReported | controller/task_video.go:142-276 | a task is only ever failed because some poll reported it |
| VideoBilling.SuccessReprices | controller/task_video.go:152-240 | a stored success leaves the whole part of tokens times model ratio times group ratio, its ratio for itself coming first, as the quota, and moves the balance by exactly the difference; without a price, or when the balance calls fail, both stay |
| VideoBilling.FailureRefunds | controller/task_video.go:121-276 | a stored failure, also an empty status, gives the whole quota back exactly once |
| VideoBilling.ProgressIsFree | controller/task_video.go:133-141 | a report of progress is stored and costs nothing; an unknown status changes nothing |
| VideoBilling.RepeatedSuccess | controller/task_video.go:152-251 | repeating a success changes no balance if and only if the first adjustment's call went through or none was due |
| VideoBilling.BulkFailLosesCharge | controller/task_video.go:35-46 | failing tasks in bulk conserves only when nothing was charged, and a later failure report refunds nothing |
| Text.JoinSplit | model/channel.go:175-196 | joining what was split gives the text back |
| Text.SplitJoin | model/channel.go:175-196 | splitting what was joined gives a non-empty list of separator-free parts back |
| Text.StoredListSurvivesIff | model/channel.go:175-196 | a joined list read back after trimming separators is the list if and only if no part contains the separator and the first and last parts are non-empty, or it is the one empty part |
| MultiKey.KeyCountMatchesIff | model/channel.go:526-556 | the size recomputed on update equals the number of keys except for an empty JSON array |
| MultiKey.GetKeyStatus | controller/channel.go:1311-1354 | the status view row by row and its three totals |
| MultiKeyViews.ViewRow | controller/channel.go:1311-1354 | a key without a stored status shows as enabled without time and reason, any other with its status, time and reason |
| MultiKey.CarriedView | controller/channel.go:1587-1628 | renumbering the three maps past dropped keys is invisible: the new view is the old one without the dropped rows, for all contents of the maps |
| MultiKey.RemoveKey | controller/channel.go:1587-1628 | the loop of delete_key: keys and view lose exactly that row |
| MultiKey.RemoveDisabled | controller/channel.go:1651-1696 | the loop of delete_disabled_keys: the view loses exactly the auto-disabled rows and their number is reported |
| MultiKey.MultiKeyChannel.Update | model/channel.go:526-573 | the stored row after an update: an empty key text is not written, the size is recomputed, statuses beyond it are dropped |
| MultiKey.MultiKeyChannel.Disable | controller/channel.go:1407-1448 | disable_key with its index checks, as Apply |
| MultiKey.MultiKeyChannel.Enable | controller/channel.go:1450-1490 | enable_key with its index checks, as Apply |
| MultiKey.MultiKeyChannel.EnableAllKeys | controller/channel.go:1492-1514 | enable_all_keys, as Apply |
| MultiKey.MultiKeyChannel.DisableAllKeys | controller/channel.go:1516-1561 | disable_all_keys with its count, as Apply |
| MultiKey.MultiKeyChannel.Delete | controller/channel.go:1563-1641 | delete_key with its refusals, as Apply |
| MultiKey.MultiKeyChannel.DeleteDisabledKeys | controller/channel.go:1643-1710 | delete_disabled_keys with its refusal, as Apply |
| MultiKeyViews.DisableKeyView | controller/channel.go:1407-1448 | disable_key gives that row status 2 and leaves every other row |
| MultiKeyViews.EnableKeyView | controller/channel.go:1450-1490 | enable_key makes that row enabled without time and reason and leaves every other row |
| MultiKeyViews.EnableAllView | controller/channel.go:1492-1514 | enable_all_keys makes every row enabled without time and reason |
| MultiKeyViews.DisableAllView | controller/channel.go:1516-1561 | disable_all_keys gives status 2 to exactly the enabled rows, and is refused exactly without one |
| MultiKeyViews.AutoUpdateView | model/channel.go:641-677 | an automatic update changes exactly the row of the first key equal to the one in use, or the first row when none is, to the given status, time and reason |
| MultiKeyViews.EnableForgets | controller/channel.go:1450-1490 | a key enabled and then disabled again shows no old time or reason |
| MultiKeyViews.EnableAllForgets | controller/channel.go:1492-1514 | enabling all keys clears all three maps |
| MultiKeyViews.DeleteKeyCarries | controller/channel.go:1587-1610 | delete_key carries the time and reason of every other key, enabled or not, to where that key is now |
| MultiKeyViews.DeleteDisabledCarries | controller/channel.go:1651-1681 | delete_disabled_keys carries no time or reason of an enabled key |
| MultiKeyViews.RepliesIff | controller/channel.go:1407-1710 | which actions are refused: without a valid index, deleting the last key, and deleting disabled keys when there is none; the number reported, and that a refusal changes nothing |
| Blanks.LooksLikeArrayIff | model/channel.go:175-196 | a key text opens like an array if and only if its first character that is not blank is a bracket |
| KeyText.KeyTextSurvivesIff | model/channel.go:175-196 | for all key lists: the keys come back from their joined text if and only if, read as an array, it has these very keys, or, read as lines, no key spans lines and neither end is blank |
| KeyText.TextAfterIff | model/channel.go:526-573 | what is read after saving the keys left by a deletion is those keys if and only if they survive as text, or one blank key stayed as it was |
| KeyText.LastsForeverIff | model/channel.go:526-573 | for lines no selection of which reads as an array: however keys are deleted, at least as many keys are counted as were left, if and only if no line is blank or there are at most two |
| KeyText.PlainLasts | model/channel.go:175-196 | keys that are non-blank lines not opening an array survive every sequence of deletions |
| MultiKeyLaws.DeletionStoredIff | controller/channel.go:1617-1628 | for all channels: what a deletion left shows unchanged after it is stored if and only if its keys survive as text |
| MultiKeyLaws.DeleteKeyViewIff | controller/channel.go:1563-1628 | for all channels: after a successful delete_key the view is the old one without that row if and only if the other keys survive as text, or a single blank key is all there is and stays |
| MultiKeyLaws.DeleteDisabledViewIff | controller/channel.go:1643-1696 | for all channels: after a successful delete_disabled_keys the view is the old one without the auto-disabled rows if and only if the keys of the other rows survive as text; when there is no other row all keys are back and enabled |
| MultiKeyLaws.DeletionInvIff | controller/channel.go:1563-1696 | for all channels: a deletion leaves size, key count and map domains consistent if and only if the carried times and reasons stay below the keys counted in the new text and that is no empty array |
| MultiKeyLaws.BlankLineBreaks | controller/channel.go:1587-1628 | a channel with a blank middle line whose first key is deleted loses the blank key too, shows its disabled key as enabled and keeps a time out of range |
| MultiKeyLaws.RunKeepsInv | controller/channel.go:1407-1710 | over every sequence of actions and automatic disables on a text that lasts, the size equals the key count, map domains stay in range and status 1 is never stored |
| MultiKeyLaws.LastingIsWeakest | controller/channel.go:1407-1710 | no weaker condition on the key text will do: every condition under which all actions keep that invariant and the condition implies that the text lasts |
| MultiKeyLaws.AutoUpdateInv | model/channel.go:641-677 | an automatic status change keeps that invariant and the keys |
| MultiKeyLaws.CountsAreExact | controller/channel.go:1492-1561 | the counts reported by enable-all and disable-all are the disabled and the enabled rows of the view, and the all-disabled test is exact |
| KeyAppend.AppendSeesKeysIff | controller/channel.go:906-919 | append works from the channel's keys if and only if the text does not open like an array that fails to parse |
| KeyAppend.AppendKeys | controller/channel.go:948-971 | append keeps the old keys as a prefix and adds exactly the trimmed, distinct keys not there before, in order |
| KeyAppend.AppendStoredIff | controller/channel.go:906-971 | once stored, the old rows are still the first rows of the view if and only if the text read as an array has the old keys first, or, read as lines, no old key spans lines, the first is not blank and neither is the last unless a key was added |
| ModelNames.NormalizeSound | controller/channel_upstream_update.go:97-102 | normalising gives distinct trimmed non-empty names, exactly those mentioned |
| Blanks.NormalizeStrips | controller/channel_upstream_update.go:97-102 | a name written with blanks around it, of any Unicode kind, is listed without them |
| ModelNames.NormalizeNormal | controller/channel_upstream_update.go:97-102 | a normal list is unchanged |
| ModelNames.MergeIsNormalize | controller/channel_upstream_update.go:104-118 | merging is normalising the concatenation |
| ModelNames.MergeModelNames | controller/channel_upstream_update.go:104-118 | the loop with its seen-set computes Merge |
| ModelNames.SubtractSound | controller/channel_upstream_update.go:120-129 | set difference, normal |
| ModelNames.IntersectSound | controller/channel_upstream_update.go:131-140 | set intersection, normal |
| ModelNames.ApplySelectedNormal | controller/channel_upstream_update.go:142-147 | on normal lists: the origin in its order without what is removed and not re-added, then the new additions in theirs |
| Reconcile.CollectPending | controller/channel_upstream_update.go:176-235 | the loops over sets compute Detect |
| Reconcile.DetectSound | controller/channel_upstream_update.go:176-235 | both pending lists are normal and keep the given order; a model is to be added if and only if it is upstream, not local, no redirect target, matched by no `regex:` rule and named by no other rule, and to be removed if and only if it is local, not upstream and no redirect source |
| Reconcile.UpstreamChannel.CheckAndPersist | controller/channel_upstream_update.go:360-407 | a check: skipped within the interval, failed fetch, auto-sync and manual branch, and a failed write of the row or of its abilities |
| Reconcile.UpstreamChannel.ApplyUpdates | controller/channel_upstream_update.go:780-828 | applying a user's selection, as ApplyOn; a failed write of the row changes and returns nothing, one of the abilities is reported |
| ReconcileLaws.StoredModels | model/channel.go:289-294 | a normal comma-free list survives being stored as text |
| ReconcileLaws.CheckIsFresh | controller/channel_upstream_update.go:360-407 | after a manual check the pending lists are those detection gives for the unchanged models |
| ReconcileLaws.AppliedModels | controller/channel_upstream_update.go:793-815 | after applying, the models are the old ones in order without the removed, followed by the added |
| ReconcileLaws.PartitionIff | controller/channel_upstream_update.go:780-828 | a pending addition ends in exactly one of models, ignored list, remaining list if and only if it was selected, ignored by the user, or not already listed as a rule |
| ReconcileLaws.ApplyPartitions | controller/channel_upstream_update.go:780-828 | without `regex:`-named upstream models and for arbitrary selections: every pending addition ends in exactly one place, every pending removal is gone or remaining, nothing else changes membership or order |
| ReconcileLaws.ConvergesIff | controller/channel_upstream_update.go:780-828 | after applying everything, detection finds nothing to remove, and nothing to add if and only if every ignored model keeps a surviving rule |
| ReconcileLaws.Converges | controller/channel_upstream_update.go:780-828 | without `regex:`-named upstream models detection after applying everything is empty |
| ReconcileLaws.ConvergenceCanFail | controller/channel_upstream_update.go:780-828 | with the rule `regex:^b` and the upstream models `regex:^b` and `b` it is not: `b` is reported again |
| ReconcileLaws.CheckReportsAdditions | controller/channel_upstream_update.go:384-396 | in both branches the remaining pending additions plus the automatically added models are all detected additions |
| ReconcileLaws.CheckChangesIff | controller/channel_upstream_update.go:384-407 | a check reports a changed channel, and how many models it added, exactly when auto-sync was allowed and on and something was detected |
| ReconcileLaws.ApplyChangesIff | controller/channel_upstream_update.go:800-805 | applying reports a change exactly when it selected something pending |
| ReconcileLaws.NextCheckSkippedIff | controller/channel_upstream_update.go:366-378 | after a check, a failed fetch or an applied selection, an unforced check is skipped exactly until the interval since then is over |
| ReconcileLaws.AutoSyncModels | controller/channel_upstream_update.go:384-396 | auto-sync appends exactly the detected additions and leaves the rules alone |
| ReconcileLaws.AutoSyncConverges | controller/channel_upstream_update.go:384-396 | after auto-sync detection finds nothing to add |
| KeysetScan.AscendingSplit | controller/channel_upstream_update.go:540-560 | the rest of the ordered rows after the k-th are the ordered rows with a greater id |
| KeysetScan.ScanStep | controller/channel_upstream_update.go:540-608 | a batch extends the visited prefix, shrinks what is left, and a short or empty batch means everything was visited |
| KeysetScan.RunTaskOnce | controller/channel_upstream_update.go:540-608 | over a fixed table with positive ids the loop ends, visits every enabled channel exactly once in id order and tallies all of them; a failed query ends it with a prefix of them |
| KeysetScan.TotalsAreSums | controller/channel_upstream_update.go:561-608 | all reported totals are sums over the channels, and the failed list holds exactly the failed ids |
| UpdateTask.CheckTarget | controller/channel_upstream_update.go:566-583 | one channel of the scan: skipped, failed, or counted from the settings after the check, as Outcome |
| UpdateTask.OutcomeIsPending | controller/channel_upstream_update.go:566-590 | what the scan counts for a channel whose check ran is what is pending for it, in the auto-sync and in the manual branch |
| UpdateTask.TotalsAreDetected | controller/channel_upstream_update.go:561-608 | the total additions and removals are the sums of what is pending for the visited channels whose check ran, and the failed list holds the others that were due |
| PriceDifferences.DiffersIffApart | controller/ratio_sync.go:48-62 | a channel differs if and only if it has a value where there is none locally, a number at least 1e-9 away, another string, or a value of another kind |
| PriceDifferences.CompareCell | controller/ratio_sync.go:605-629 | what one channel contributes to an entry, and whether it differs from the local value |
| PriceDifferences.CellMeans | controller/ratio_sync.go:605-629 | a cell holds the channel's value when it differs, "same" when it does not or neither side has one, and null when only the local side has one |
| PriceDifferences.Confidence | controller/ratio_sync.go:561-591 | a channel is trusted on a model unless both its ratios are numbers less than 1e-9 from 37.5 and 1; the branch for channels without both maps changes nothing |
| PriceDifferences.AllModels | controller/ratio_sync.go:542-556 | exactly the models with a value in some field, locally or upstream |
| PriceDifferences.CompareField | controller/ratio_sync.go:594-654 | one drafted entry: when it is included, and its cells and confidence per channel name |
| PriceDifferences.ChannelsWithDifferences | controller/ratio_sync.go:656-665 | exactly the names with a cell that is neither null nor "same" |
| PriceDifferences.PruneAll | controller/ratio_sync.go:667-693 | every entry loses the channels not kept and goes if only "same" is left; no model stays without entries |
| PriceDifferences.BuildDifferences | controller/ratio_sync.go:536-696 | all passes together return exactly Report at every (model, field), for all inputs |
| PriceDifferences.ReportedIff | controller/ratio_sync.go:536-696 | for all inputs: an entry is reported if and only if some channel name shows a difference there, or a hidden difference from a local value meets a listed channel with no value there |
| PriceDifferences.ReportSound | controller/ratio_sync.go:536-696 | every reported entry has a channel whose value differs from the local one |
| PriceDifferences.ReportLists | controller/ratio_sync.go:656-693 | a reported entry lists exactly the names that show a difference somewhere, each with its last channel's cell and confidence |
| PriceDifferences.ReportExact | controller/ratio_sync.go:536-696 | with distinct names and no null or "same" values, an entry is reported if and only if it is in one of the ten fields and some channel has a value there while there is no local one, or a number at least 1e-9 away, another string, or a value of another kind |
| PriceDifferences.PruningKeepsEntries | controller/ratio_sync.go:667-693 | on such input pruning never drops an entry |
| PriceDifferences.ListedExact | controller/ratio_sync.go:656-665 | on such input the listed channels are exactly those that differ somewhere |
| PriceDifferences.MissedIff | controller/ratio_sync.go:536-696 | a difference is missed if and only if no name shows it and, where there is a local value, no listed name is silent |
| PriceDifferences.WordSameIsMissed | controller/ratio_sync.go:605-629 | a channel whose billing mode is the word "same" is missed |
| ModelsDev.BuildCandidate | controller/ratio_sync.go:838-879 | an offer is refused exactly without a valid input cost, with an invalid output cost, or for a free input with a paid output; an accepted one keeps its costs, and its cache cost exactly when that is valid |
| ModelsDev.OfferAll | controller/ratio_sync.go:922-944 | one provider's models, in any order, update exactly their own selections |
| ModelsDev.SelectAll | controller/ratio_sync.go:922-944 | after the scan the map holds exactly the selection of every model |
| ModelsDev.SortedUnique | controller/ratio_sync.go:915-919 | the sorted list of a set of names is unique, so the scan does not depend on map iteration order |
| ModelsDev.LessIff | controller/ratio_sync.go:881-895 | provider names compare as in a dictionary |
| ModelsDev.NoTieBreak | controller/ratio_sync.go:881-895 | with providers in ascending order the tie-breaker never fires |
| ModelsDev.SelectionDoesNotDrift | controller/ratio_sync.go:881-944 | the selected cost is non-zero as soon as some offer is, and less than 1e-9 above every non-zero offer, although the comparison is not transitive |
| ModelsDev.FreeIff | controller/ratio_sync.go:881-944 | a model is selected as free if and only if every offer for it is free |
| ModelsDev.DriftsWithoutOrder | controller/ratio_sync.go:881-895 | visited in descending order, a chain of offers each less than 1e-9 dearer is followed to its dearest end |
| ModelsDev.RoundRatioBound | controller/ratio_sync.go:698-700 | rounding moves a value by at most half a millionth and keeps it non-negative |
| ModelsDev.RoundsToZeroIff | controller/ratio_sync.go:698-700 | a non-zero cost gets ratio 0 if and only if it is below one millionth |
| ModelsDev.EmitRatios | controller/ratio_sync.go:950-972 | the three ratio maps hold exactly what each selected candidate calls for |
| ModelsDev.EmittedRatios | controller/ratio_sync.go:950-972 | the published ratios are half the input cost and the output and cache costs as multiples of it, each within half a millionth; a free model has ratio 0 and no multiples |
| ModelsDev.Convert | controller/ratio_sync.go:906-972 | empty input, no usable entry, or the ratios of exactly the selected models |
| ModelsDev.RatioNearCheapest | controller/ratio_sync.go:897-972 | the emitted ratio is half the cheapest non-zero cost up to the comparison's 1e-9 and the rounding |

## Left out

- HTTP handlers, JSON binding, logging, sessions, OAuth, payment clients, signature checks: plumbing and foreign protocols.
- The relay's retry loop, the Midjourney poller, other audio formats: they rest on code or formats outside this model.
- Cache cleanup and counter resets that rewrite the counters from directory contents are not steps of `StorageAccounting`.
- Float rounding at the IEEE level: amounts are reals, so overflow, NaN and rounding of sums are not modelled.
- `OrderLocks`: a callback completes an order in one database step that either fails or leaves the order not pending; the body of that call is not modelled.
- `RateLimiter`: a negative limit, for which the source's allocation of the queue fails at run time, is not modelled; a limit of 0 is modelled and acts as 1. The mutex around each call makes calls atomic.
- BodyStorage.MemoryStorage.Bytes: does not model that the returned slice aliases the stored one.
- BodyStorage.MemoryStorage.Seek: does not model origins other than the three defined ones or 64-bit overflow of a target.
- BodyStorage.DiskStorage.constructor: does not model the failure of creating, filling or rewinding the file; a failed create is an outcome of `CreateFromReader` and `CreateFromBytes`.
- BodyStorage.CreateKeepsBodyIff: assumes no I/O error; a failed disk write is only distinguished as such.
- `VideoBilling`: progress, timestamps, stored answer data and the used-quota counters are not modelled.
- VideoBilling.RunConserves: assumes stored rows, working refunds and final failures; PollConservesIff says exactly when one poll breaks conservation without them.
- VideoBilling.Ledger.DecreaseUserQuota: does not model the cached balance or updates that are batched and written later.
- VideoBilling.Ledger.IncreaseUserQuota: does not model the cached balance or updates that are batched and written later.
- `MultiKey`: the JSON grammar of a key array is a parameter; the shortened key preview, paging and status filter of the view are left out as easy.
- `Reconcile`: regular-expression matching is a parameter; fetching upstream models and normalising the mapping are not modelled.
- KeysetScan.RunTaskOnce: the table is fixed during the scan; model name samples, channel summaries, notification and cache refresh are not modelled.
- `PriceDifferences`: published values are null, numbers or strings; booleans and nested values are not modelled, and numbers of any Go type are one real.
- `ModelsDev`: decoding the JSON is not modelled; `sort.Strings` is given by its result, the ascending list of the keys.
