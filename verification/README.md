# Verification model of the queue platform's shared logic

A Dafny model of the parts of the platform whose correctness rests on reasoning rather than on a library:
civil time and opening hours, the protocols between concurrent parties, the notification worker, codecs and
validators, and the client's session and cache state. `dafny verify dfyconfig.toml` checks everything.

| file | what it models |
|---|---|
| `Decimal`, `Calendar`, `IsoDate` | decimal numerals, the Gregorian calendar of `Date.UTC` (section 21.4 of ECMA-262), ISO date keys |
| `TimeZones`, `DayRanges`, `BranchHours` | zones as step functions from instants to offsets, the local-to-UTC solver, local days, the two opening-hours evaluators |
| `RedisPubSub` | the shared subscriber connection, with calls suspended at their `await` and Redis executing commands in any order of events |
| `RefreshLock` | the refresh lock in localStorage, and any number of tabs contending for it |
| `ApiClient` | the request wrapper with its retry, refresh and session end; the single refresh in flight |
| `NotificationWorker`, `SmsUsage`, `SmsCredits` | job attempts, guarded rows and counters, the dead-letter queue, and the cached SMS usage |
| `ImpersonationHandoff` | base64url (sections 4 and 5 of RFC 4648) and the launch URL |
| `GuidedSetup`, `FlowTemplate`, `Text` | the draft validator, the cross-step rules of the template schema, and the text operations they use |
| `Slug` | the slug rewrite, and ticket display numbers |
| `AuthStore` | impersonation backup and restore, token refresh, rehydration |
| `SentryPii` | redaction of payloads |
| `TenantCache` | cached tenant pages with their counters |

Code that updates state is a class or a loop, proved against a function of its inputs or of the old state; the
properties are then proved of that function, over all inputs or all runs. Steps of a protocol are events, and a
run is any sequence of them; an event that cannot happen in a state leaves it alone.

## Where the code does less than it seems to

For each of these the model has an input or a run on which it happens, or a condition proved in both directions, or both.

- The local-to-UTC solver needs transitions at least twice the largest offset apart, and one millisecond less is too
  close (`SpacingIsExact`, `CloseTransitionsMislead`); a zone that skips a whole day leaves an empty range for the day
  before (`SkippedDayEmptiesTheOneBefore`).
- Date keys do not show the era, so a year before the common era shares the keys of a later one (`KeyNamesDay`,
  `ErasShareAKey`).
- The two opening-hours evaluators differ on a slot that spans a break whose end is not after its start
  (`SlotAgreesWithInstants`, `InvertedBreakDisagrees`).
- A failed SUBSCRIBE drops every listener the channel has at that time (`FanOut`, `FailureDropsCoSubscriber`), and a
  failed UNSUBSCRIBE leaves the channel with the server (`ReplayIsListeners`, `FailedUnsubscribeLeaks`).
- The comment at `apps/loyalty/src/lib/auth-refresh-coordination.ts:75-78` speaks of serialising refreshes across tabs.
  That holds of lock holders that end before the TTL (`MutualExclusion`), not of late ones (`OverrunAdmitsASecond`,
  `OverrunRun`), of tabs without writable storage (`UnwritableStorageExcludesNobody`), or of waiters, which send their
  own refresh without the lock (`WaitersRefreshUnlocked`).
- The campaign counter counts successful attempts, not rows in status `sent` (`CounterAgreesWithRow`,
  `FailedRowIsCountedAsSent`).
- The fallback of three attempts must match the queue's own default (`UnstatedAttemptsNeedThree`).
- The cached SMS usage is an earlier count. It falls behind when handlers overlap (`CrossedWritesFallShort`) and exceeds
  the true count after a failed delivery (`FailedDeliveryOvershoots`), for good if writes cross
  (`CrossedFailureOvershoots`); `CacheWithinIff` says exactly when. The comment at
  `packages/api/src/modules/billing/sms-usage.service.ts:50` speaks of syncing a cache that drifts; the code syncs only
  one that is missing or unreadable.
- Impersonating with an empty token, or patching the impersonation flag, can cost the original session
  (`ExitRestoresIff`, `EmptyTokenLosesSession`, `FlagPatchLosesSession`), and a restored user carries an `impersonation`
  key that is undefined (`ExitRestoresSession`).
- The template rules compare desks untrimmed, unlike the draft rules (`TemplateAcceptsIff`, `TemplateRulesAreLaxer`).
- Patching a suspended tenant that is not on a cached page miscounts, and suspending one repeatedly counts every time
  (`CountersStayExactIff`, `RepeatChangesNothingIff`).

## Model

| member | source | states |
|---|---|---|
| `IsoDate.NormalizeAcceptsRealDays` | packages/shared/src/utils/branch-hours.ts:46-57 | the normaliser accepts exactly the texts YYYY-MM-DD that name a real Gregorian day of a year from 1000 on, and returns them unchanged; every other text is refused, the years 0 to 99 that `Date.UTC` moves to 1900 among them |
| `IsoDate.IsoUtcRoundTrip` | packages/shared/src/utils/branch-hours.ts:31-38 | text to UTC midnight to text is the identity on every accepted key, and the midnight is that of the named civil day |
| `IsoDate.UtcIsoRoundTrip` | packages/shared/src/utils/branch-hours.ts:36-57 | every UTC midnight of a four-digit year prints as an accepted key that leads back to it |
| `IsoDate.NextKeyIsNextCivil` | packages/shared/src/utils/branch-hours.ts:83-85 | overflowing the day in `Date.UTC` and printing gives the key of the next civil day, over month, year and leap-day ends |
| `IsoDate.WeekdayAdvances` | packages/shared/src/utils/branch-hours.ts:41-44 | the Monday-first weekday of the next day is one more, modulo seven |
| `IsoDate.JuneFifteenIsMonday` | packages/shared/src/utils/branch-hours.ts:41-44 | 15 June 2026 is weekday 0, which with the advance law fixes all weekdays |
| `IsoDate.KeyDefaults` | packages/shared/src/utils/branch-hours.ts:32-33 | a missing month or day reads as 1, and what follows the day is ignored |
| `IsoDate.TwoDigitYears` | packages/shared/src/utils/branch-hours.ts:31-34 | the years 0 to 99, and no others, are moved to 1900 to 1999 |
| `IsoDate.KeyIsPadded` | packages/shared/src/utils/branch-hours.ts:36-38 | literal keys: month and day in that order, padded to two digits, the year not padded |
| `Calendar.DayOfCivilOfDay` | packages/shared/src/utils/branch-hours.ts:36-38 | the year, month and day read off a UTC day lead back to that day, for every day number |
| `Calendar.CivilOfDayOfCivil` | packages/shared/src/utils/branch-hours.ts:31-38 | a year-month-day triple survives the trip through `Date.UTC` if and only if it names a day that exists |
| `Calendar.NextDayIsNextCivil` | packages/shared/src/utils/branch-hours.ts:83-85 | day number plus one is the calendar successor |
| `Calendar.MonthStarts` | packages/shared/src/utils/branch-hours.ts:31-38 | the days before each month are those of the table in ECMA-262, with the leap day from March on |
| `Calendar.OverflowCarries` | packages/shared/src/utils/branch-hours.ts:33 | in `Date.UTC` twelve months more are a year more, and days carry over |
| `BranchHours.ZonedDateTimeToUtc` | packages/shared/src/utils/branch-hours.ts:64-76 | the loop that reassigns the candidate twice returns the value of the solver specification `ToUtc`, about which the next rows speak; missing months, days and minutes take the defaults of the code |
| `TimeZones.SolveExact` | packages/shared/src/utils/branch-hours.ts:64-76 | with transitions at least twice the largest offset apart, the instant found reads as the requested wall-clock time if and only if some instant does |
| `TimeZones.GapMissesByTheJump` | packages/shared/src/utils/branch-hours.ts:64-76 | for a skipped wall-clock time there is one transition around it, forward over it, and the result is off by exactly the size of that jump, late or early by which side of the transition the request lies on |
| `TimeZones.GapHasNoInstant` | packages/shared/src/utils/branch-hours.ts:64-76 | the converse: a forward transition over a wall-clock time leaves it without an instant |
| `TimeZones.FoldChoice` | packages/shared/src/utils/branch-hours.ts:64-76 | for a repeated wall-clock time both readings exist, and which of the two is returned |
| `TimeZones.CloseTransitionsMislead` | packages/shared/src/utils/branch-hours.ts:64-76 | the spacing is needed: two transitions half an hour apart make two iterations miss a wall-clock time that exists |
| `TimeZones.SpacingIsExact` | packages/shared/src/utils/branch-hours.ts:64-76 | for offsets of at most m minutes, the solver is exact on every reading of every zone whose transitions are a given gap apart if and only if that gap is at least twice m minutes |
| `TimeZones.TightZoneFails` | packages/shared/src/utils/branch-hours.ts:64-76 | for every m, a zone with transitions one millisecond closer than that in which an existing reading is missed |
| `TimeZones.SpacedTable` | packages/shared/src/utils/branch-hours.ts:226-237 | a zone given by any table of transitions, its offsets bounded and its entries spaced apart, meets the hypothesis of the rows above |
| `TimeZones.TableReads` | packages/shared/src/utils/branch-hours.ts:226-237 | such a zone has, at each instant, the offset of the last table entry not later |
| `DayRanges.OffsetFromPartsExact` | packages/shared/src/utils/branch-hours.ts:226-237 | the offset computed from the printed parts is the offset of the zone if and only if the local year is at least 100 |
| `DayRanges.PartsSolveAgrees` | packages/shared/src/utils/branch-hours.ts:64-76 | from the year 101 on, solving with offsets read through the parts is solving with the zone itself |
| `BranchHours.ZonedTimeIsExact` | packages/shared/src/utils/branch-hours.ts:64-76 | the two-iteration result for a date and a time reads as that date and time if and only if the wall clock ever shows them |
| `BranchHours.SkippedTimeMissesByTheJump` | packages/shared/src/utils/branch-hours.ts:64-76 | for a date and time the clocks skip, the miss is exactly the size of the jump |
| `DayRanges.DaysAreNonEmpty` | packages/shared/src/utils/branch-hours.ts:78-92 | when no jump is forward by 24 hours or more, each local day starts strictly before the next |
| `DayRanges.SkippedDayEmptiesTheOneBefore` | packages/shared/src/utils/branch-hours.ts:78-92 | the bound is tight: where a whole day is skipped, the range of the day before it is empty and its instants fall to the skipped date |
| `DayRanges.RangesTile` | packages/shared/src/utils/branch-hours.ts:78-92 | the range of a date is not empty, and its end plus one millisecond is the start of the range of the next date |
| `DayRanges.EveryInstantInOneDay` | packages/shared/src/utils/branch-hours.ts:78-92 | every instant lies in exactly one of the local days: the ranges partition the timeline |
| `DayRanges.RangeIsLocalDay` | packages/shared/src/utils/branch-hours.ts:78-92 | when both bounding midnights occur exactly once, an instant lies in the range of a day if and only if its local day is that day |
| `DayRanges.KeyNamesDay` | packages/shared/src/utils/branch-hours.ts:59-62 | when an instant prints the date key of a given day: if and only if its local day is that day or, since the era is not printed, the day of the same year number before the common era |
| `DayRanges.ErasShareAKey` | packages/shared/src/utils/branch-hours.ts:59-62 | an instant of 2026 and one of 2026 BC that print the same key |
| `DayRanges.RangeIsDateKey` | packages/shared/src/utils/branch-hours.ts:59-92 | when both bounding midnights occur exactly once, whatever the clocks do on other days, the date key of an instant is the date if and only if the instant lies in the range of the date, or on the day of the same printed year before the common era |
| `BranchHours.SlotAgreesWithInstants` | packages/shared/src/utils/branch-hours.ts:118-194 | a slot of positive length that is open is open at each instant; the two evaluators agree if and only if the slot does not span, within the hours, a break that ends no later than it starts |
| `BranchHours.InvertedBreakDisagrees` | packages/shared/src/utils/branch-hours.ts:169-194 | hours 09:00 to 17:00 with a break from 13:00 to 12:00, in UTC on any date: from 11:00 to 14:00 every instant is open, and the slot is refused |
| `BranchHours.ClosedDayIff` | packages/shared/src/utils/branch-hours.ts:124-178 | both evaluators answer that the day is closed if and only if no hours are given, they are marked closed, or the opening or closing time is missing |
| `BranchHours.EvaluationReports` | packages/shared/src/utils/branch-hours.ts:118-167 | open agrees with the reason, the date is passed on, and hours and bounds come unless the day is closed |
| `BranchHours.SlotByWallClock` | packages/shared/src/utils/branch-hours.ts:169-194 | on a date whose times the clocks show once, a slot is outside the hours if and only if the wall clock is before opening at its first instant or at or past closing at its last, and otherwise in the break if and only if it reaches into it |
| `BranchHours.ClockDefaults` | packages/shared/src/utils/branch-hours.ts:66-67 | missing minutes read as 0, and what follows the minutes is ignored |
| `BranchHours.ShownOnceByWallClock` | packages/shared/src/utils/branch-hours.ts:98-167 | on any date whose opening, closing and break times the clocks show exactly once, transitions or not, the instant evaluator decides each instant by its wall-clock time counted from the midnight of the date |
| `BranchHours.SteadyDayByWallClock` | packages/shared/src/utils/branch-hours.ts:98-167 | the same without any spacing of transitions elsewhere, on a day with none nearby |
| `RedisPubSub.RedisPubSubManager.constructor` | packages/api/src/redis/redis-pubsub-manager.service.ts:8-14 | no connection, no listeners, nothing sent |
| `RedisPubSub.RedisPubSubManager.BeginSubscribe` | packages/api/src/redis/redis-pubsub-manager.service.ts:19-34 | the new fields are those of the specification step, and the call suspends if and only if its channel now has one listener |
| `RedisPubSub.RedisPubSubManager.EndSubscribe` | packages/api/src/redis/redis-pubsub-manager.service.ts:34-43 | success clears the subscribing mark, failure drops the channel with all its listeners |
| `RedisPubSub.RedisPubSubManager.Unsubscribe` | packages/api/src/redis/redis-pubsub-manager.service.ts:51-66 | removes the callback, and with the last one the channel, sending UNSUBSCRIBE |
| `RedisPubSub.RedisPubSubManager.OnMessage` | packages/api/src/redis/redis-pubsub-manager.service.ts:74-85 | a message reaches each listener of its channel once, in insertion order |
| `RedisPubSub.StepKeepsInv` | packages/api/src/redis/redis-pubsub-manager.service.ts:19-66 | each call, reply, resumption and teardown keeps all parts of the invariant: listener sets, suspended calls, queue, replay, and live callbacks |
| `RedisPubSub.RunKeepsInv` | packages/api/src/redis/redis-pubsub-manager.service.ts:19-66 | every interleaving keeps the invariant |
| `RedisPubSub.RunKeepsLeaks` | packages/api/src/redis/redis-pubsub-manager.service.ts:51-66 | in every interleaving a queued UNSUBSCRIBE finds its channel held, and a leaking channel is held by the server with no listener but those of a failed SUBSCRIBE |
| `RedisPubSub.ReplayIsListeners` | packages/api/src/redis/redis-pubsub-manager.service.ts:19-66 | in every interleaving, replaying the queued commands on the server state gives the channels in `listeners`, less those whose failed SUBSCRIBE is not yet handled, if and only if the channel did not lose an UNSUBSCRIBE that nothing queued will settle; stored sets are never empty |
| `RedisPubSub.FailedUnsubscribeLeaks` | packages/api/src/redis/redis-pubsub-manager.service.ts:60-65 | a run in which the exception of the row above happens |
| `RedisPubSub.QuietServerMatches` | packages/api/src/redis/redis-pubsub-manager.service.ts:19-66 | with nothing in flight, the server holds exactly the listened channels and, apart from them, those that lost an UNSUBSCRIBE |
| `RedisPubSub.OneSubscribeInFlight` | packages/api/src/redis/redis-pubsub-manager.service.ts:31-43 | no two queued SUBSCRIBEs and no two suspended calls share a channel, and the subscribing mark is set exactly while a call is suspended |
| `RedisPubSub.TeardownIsIdempotent` | packages/api/src/redis/redis-pubsub-manager.service.ts:45-66 | after a teardown, whatever happens next, calling it again changes nothing, and its callback is never listening again |
| `RedisPubSub.FanOut` | packages/api/src/redis/redis-pubsub-manager.service.ts:19-85 | in every interleaving a callback that called subscribe listens if and only if it was not torn down and no SUBSCRIBE on its channel has failed since its call |
| `RedisPubSub.ReachesOwnChannel` | packages/api/src/redis/redis-pubsub-manager.service.ts:74-85 | a message on a channel reaches only callbacks that subscribed to it |
| `RedisPubSub.ArrivalOrder` | packages/api/src/redis/redis-pubsub-manager.service.ts:22-28 | in every interleaving the listeners of a channel stand in the order of their calls |
| `RedisPubSub.FailureDropsCoSubscriber` | packages/api/src/redis/redis-pubsub-manager.service.ts:37-42 | a failed SUBSCRIBE silences a second subscriber whose own call had returned normally |
| `RefreshLock.LockStorage.constructor` | apps/loyalty/src/lib/auth-refresh-coordination.ts:6-7 | no lock is stored |
| `RefreshLock.LockStorage.TryAcquireRefreshLock` | apps/loyalty/src/lib/auth-refresh-coordination.ts:9-30 | acquired unless a readable, unexpired lock is stored; what is stored then, also when storage refuses |
| `RefreshLock.LockStorage.ReleaseRefreshLock` | apps/loyalty/src/lib/auth-refresh-coordination.ts:32-38 | removes whatever lock is stored |
| `RefreshLock.WaitForPeerRefresh` | apps/loyalty/src/lib/auth-refresh-coordination.ts:40-47 | the polling loop ends after at most 100 sleeps; it ends only past its deadline or on an absent or expired lock, and not before |
| `RefreshLock.MutualExclusion` | apps/loyalty/src/lib/auth-refresh-coordination.ts:79-92 | for any number of tabs and any run: if each holder ends before its TTL, at most one tab is inside the refresh, and the stored expiry is its own |
| `RefreshLock.OverrunAdmitsASecond` | apps/loyalty/src/lib/auth-refresh-coordination.ts:20-30 | the hypothesis is exact: an idle tab gets in beside a holder if and only if the holder has reached its TTL |
| `RefreshLock.LateReleaseAdmitsAThird` | apps/loyalty/src/lib/auth-refresh-coordination.ts:32-38 | the release of a late holder removes the lock of its successor, so that a third tab joins |
| `RefreshLock.OverrunRun` | apps/loyalty/src/lib/auth-refresh-coordination.ts:20-38 | from a free lock, one run of three tabs in which both of the rows above happen |
| `RefreshLock.UnwritableStorageExcludesNobody` | apps/loyalty/src/lib/auth-refresh-coordination.ts:20-30 | of two tabs starting on a free lock, the second gets in beside the first if and only if the first could not write or the second cannot read |
| `RefreshLock.WaitersRefreshUnlocked` | apps/loyalty/src/lib/auth-refresh-coordination.ts:82-85 | waiters leaving a freed lock refresh beside each other and beside a new holder |
| `RefreshLock.WaitIsBounded` | apps/loyalty/src/lib/auth-refresh-coordination.ts:40-47 | in every run a waiter has slept at most 100 times, and only its own poll of a free lock, or past the deadline, ends the wait |
| `RefreshLock.StartWaitsOrRefreshes` | apps/loyalty/src/lib/auth-refresh-coordination.ts:79-85 | a tab that finds a readable held lock waits up to 15 seconds; any other goes ahead, with a lock of 20 seconds if it can write |
| `RefreshLock.SyncsOnlyAfterWaiting` | apps/loyalty/src/lib/auth-refresh-coordination.ts:82-85 | a tab pulls a token on its own only out of its wait, with the lock free or the deadline past |
| `RefreshLock.PollWaitsOrSyncs` | apps/loyalty/src/lib/auth-refresh-coordination.ts:40-47 | each poll ends the wait exactly if the lock is free or the time is up, and otherwise sleeps 150 milliseconds |
| `RefreshLock.DoneTabsStartAgain` | apps/loyalty/src/lib/auth-refresh-coordination.ts:79-92 | a finish removes the lock, a tab that is done can start again, and no event moves another tab |
| `RefreshLock.DeadLockExpires` | apps/loyalty/src/lib/auth-refresh-coordination.ts:20-30 | after one TTL, whatever happened to the holder, any idle tab acquires the lock |
| `ImpersonationHandoff.ToBase64Url` | packages/shared/src/utils/impersonation-handoff.ts:51-61 | the loop that builds the binary string, then the rewriting, yield the URL-safe encoding of the bytes |
| `ImpersonationHandoff.Base64UrlRoundTrip` | packages/shared/src/utils/impersonation-handoff.ts:51-72 | for all byte strings decoding the encoding is the identity: stripped padding is restored exactly |
| `ImpersonationHandoff.EncodedAlphabet` | packages/shared/src/utils/impersonation-handoff.ts:60 | the encoding uses the URL-safe alphabet of RFC 4648 section 5 and no padding |
| `ImpersonationHandoff.EncodesTheBits` | packages/shared/src/utils/impersonation-handoff.ts:51-61 | the six-bit values of the characters, by the URL-safe table of RFC 4648 section 5, are the bits of the bytes filled up with zeros |
| `ImpersonationHandoff.DecodableTexts` | packages/shared/src/utils/impersonation-handoff.ts:63-72 | a text over that alphabet decodes if and only if its length is not one more than a multiple of four |
| `ImpersonationHandoff.LaunchUrlRoundTrip` | packages/shared/src/utils/impersonation-handoff.ts:74-140 | reading the hash of a built launch URL gives back exactly the payload if base and path contain no `#` and the payload has the required fields, and nothing otherwise |
| `ImpersonationHandoff.LaunchUrlParts` | packages/shared/src/utils/impersonation-handoff.ts:123-132 | the URL is base, one slash, path, hash key and encoded payload, in this order; one trailing slash of the base and a missing leading slash of the path make no difference |
| `ImpersonationHandoff.ReadBackIff` | packages/shared/src/utils/impersonation-handoff.ts:78-96 | a payload is read back if and only if the seven required fields are there as text |
| `ImpersonationHandoff.OtherHashIgnored` | packages/shared/src/utils/impersonation-handoff.ts:134-140 | a hash without the handoff key at its start is not read |
| `NotificationWorker.Worker.ProcessJob` | packages/notifications/src/index.ts:77-260 | one handler call takes the tables to the state of the specification, for every provider reply and every store operation that may fail |
| `NotificationWorker.Worker.UpdateCampaign` | packages/notifications/src/index.ts:177-210 | the transaction applies both the guarded row update and the counter, or neither |
| `NotificationWorker.CallsInAttempt` | packages/notifications/src/index.ts:98-151 | exactly when an attempt calls the provider |
| `NotificationWorker.OneCallPerAttempt` | packages/notifications/src/index.ts:125-151 | over any run the provider is called at most once per attempt, and never for push or unknown channels |
| `NotificationWorker.AttemptOnCampaign` | packages/notifications/src/index.ts:177-210 | an attempt changes send rows and counters by its committed transaction and in no other way |
| `NotificationWorker.AttemptOnSend` | packages/notifications/src/index.ts:185-208 | the committed result and its time on the send row; nothing on the row of another organisation; and a roll-back when the campaign is missing |
| `NotificationWorker.RowShowsLastAnswer` | packages/notifications/src/index.ts:167-175 | over any run the notification row shows the answer of the last attempt that reached it, and the time of the last success |
| `NotificationWorker.RowKeepsLastId` | packages/notifications/src/index.ts:167-175 | over any run the row carries the last non-empty message id that an attempt brought to it, or its original one |
| `NotificationWorker.AnswerIsProviders` | packages/notifications/src/index.ts:127-151 | push and unknown channels count as failures without a provider |
| `NotificationWorker.CompletedMeansSent` | packages/notifications/src/index.ts:155-258 | a completed attempt left the row sent and logged so, or found the row gone and changed nothing; a success without faults completes |
| `NotificationWorker.AttemptEnds` | packages/notifications/src/index.ts:155-258 | exactly when an attempt recounts the usage, what it logs and when, and exactly when it completes: on a row that is gone, or with a logged success |
| `NotificationWorker.SettledSendIsFinal` | packages/notifications/src/index.ts:185-196 | a send row that has left queued and sending never changes again in any later attempt |
| `NotificationWorker.RowKeepsFirstCounterCountsAll` | packages/notifications/src/index.ts:177-210 | a pending row shows the first committed result for good and a settled one stays as it is, the counter rises by exactly one per committed success, and no other row or counter moves |
| `NotificationWorker.CounterAgreesWithRow` | packages/notifications/src/index.ts:177-210 | the counter rises as the row turns sent if and only if there was no success, or just one and it was the first commit on a pending row |
| `NotificationWorker.FailedRowIsCountedAsSent` | packages/notifications/src/index.ts:185-207 | refused once and then accepted: the row stays failed and the counter says sent |
| `NotificationWorker.DeadLetterQueue.CopyExhausted` | packages/notifications/src/queue-dead-letter.ts:28-43 | appends one letter exactly when the attempts are exhausted, and tells so |
| `NotificationWorker.RunJobResult` | packages/notifications/src/index.ts:277-301 | a job completes if and only if some allowed attempt does, then stops at the first that does, makes no more attempts than allowed, and leaves the letters of its failed attempts |
| `NotificationWorker.DeadLetteredIffExhausted` | packages/notifications/src/queue-dead-letter.ts:7-43 | a job that states its attempts is dead-lettered exactly once if every allowed attempt threw, and otherwise never |
| `NotificationWorker.UnstatedAttemptsNeedThree` | packages/notifications/src/queue-dead-letter.ts:5-9 | without stated attempts that holds if and only if the default of the queue is three |
| `SmsUsage.CountedAfter` | packages/api/src/modules/notification/notification-twilio-webhook.service.ts:45-80 | which events take a row into the set of billable rows and which take one out: accepted sends and reported deliveries, and failed deliveries or jobs processed again |
| `SmsUsage.CallbackLeaves` | packages/api/src/modules/notification/notification-twilio-webhook.service.ts:45-114 | what a callback writes to the row for each message status, and after which it recounts |
| `SmsUsage.UpdateLeaves` | packages/notifications/src/index.ts:167-217 | what a worker writes to the row, and when it goes on to recount |
| `SmsUsage.RecountsBillable` | packages/notifications/src/index.ts:218-226 | a recount holds the number of SMS rows that are sent or delivered and have an id starting with `SM` |
| `SmsCredits.BillableIds` | packages/shared/src/constants/sms-credits.ts:29-34 | an id is billable if and only if, letter case aside, it is `SM` and 32 digits of base sixteen |
| `SmsUsage.GrowsSince` | packages/notifications/src/index.ts:167-175 | from any point of a run on which no counted row goes out, the set of billable rows only grows, and stays the same if and only if none comes in |
| `SmsUsage.CacheIsEarlierCount` | packages/api/src/modules/billing/sms-usage.service.ts:51-71 | in every interleaving of workers, callbacks and readers, the cached usage is the true count at the recount whose write stands |
| `SmsUsage.CacheWithinIff` | packages/notifications/src/index.ts:212-227 | the cache is within the true count if and only if, over the events since that recount, counted rows went out no more often than rows came in, and equal to it if and only if they did equally often |
| `SmsUsage.CacheNeverExceeds` | packages/notifications/src/index.ts:212-227 | if no counted row went out since that recount, the cache does not exceed the true count, and equals it if and only if none came in |
| `SmsUsage.WorkerNeverExceeds` | packages/notifications/src/index.ts:212-227 | where no sent notification is processed again and no delivery is reported failed, the cache never exceeds the true count in any interleaving |
| `SmsUsage.CountBalances` | packages/notifications/src/index.ts:167-175 | over any stretch of a run the true count changes by exactly the rows that came in less those that went out |
| `SmsUsage.WriteIsExactIff` | packages/notifications/src/index.ts:218-226 | whatever happens between a recount and its write, the write is exact if and only if counted rows went out as often as rows came in; when none went out, if and only if the set is the same |
| `SmsUsage.HandlerAloneIsExact` | packages/notifications/src/index.ts:212-227 | a worker, callback or reader that nobody interrupts leaves the cache equal to the true count |
| `SmsUsage.CrossedWritesFallShort` | packages/notifications/src/index.ts:218-226 | two accepted sends whose writes cross leave the cache one short, with nothing pending |
| `SmsUsage.CrossedFailureOvershoots` | packages/api/src/modules/notification/notification-twilio-webhook.service.ts:112-114 | an accepted send and its failed delivery whose writes cross leave the cache one too high, with nothing pending |
| `SmsUsage.FailedDeliveryOvershoots` | packages/api/src/modules/notification/notification-twilio-webhook.service.ts:45-80 | a failed delivery leaves an exact cache one too high until its own recount is written |
| `SmsUsage.FailedDeliveryRun` | packages/api/src/modules/notification/notification-twilio-webhook.service.ts:45-80 | a run of five events from nothing that ends so |
| `GuidedSetup.ValidateGuidedMultiSteps` | packages/shared/src/validators/guided-setup.validators.ts:96-150 | the loop over three growing sets accepts if and only if the whole-draft predicate holds, and otherwise names the lowest step with a fault and its first fault |
| `GuidedSetup.CheckStep` | packages/shared/src/validators/guided-setup.validators.ts:114-147 | one turn of the loop finds the fault that the earlier steps cause, or extends the three sets by the step |
| `GuidedSetup.ValidMeansFaultless` | packages/shared/src/validators/guided-setup.validators.ts:96-150 | the predicate on the whole draft (size, first role, desks, distinctness, prefixes, pickup policy) holds if and only if no step has a fault relative to those before it |
| `GuidedSetup.PrefixRefusals` | packages/shared/src/validators/guided-setup.validators.ts:152-165 | a prefix is refused exactly when it is blank, taken in the draft, or held by a queue of the branch in whatever case, in this order |
| `GuidedSetup.AcceptedPrefixIsNew` | packages/shared/src/validators/guided-setup.validators.ts:135-141 | in an accepted draft no new queue takes a prefix of the branch in whatever case |
| `GuidedSetup.AcceptedDraftBecomesTemplate` | packages/shared/src/validators/flow-template.validators.ts:24-55 | an accepted draft, numbered from one with fresh ids for its new queues, passes the cross-step rules of the template schema |
| `GuidedSetup.TemplateAcceptsIff` | packages/shared/src/validators/flow-template.validators.ts:24-55 | the template of any draft, accepted or not, passes those rules if and only if its existing queues and its untrimmed desk numbers are distinct |
| `GuidedSetup.TemplateRulesAreLaxer` | packages/shared/src/validators/flow-template.validators.ts:47-54 | the converse fails: two different existing queues at desks that differ by a trailing space pass the template rules and fail the draft rules |
| `Text.UpperTrimIdempotent` | packages/shared/src/validators/guided-setup.validators.ts:130-157 | a prefix normalised by the step loop is unchanged by the second normalisation in the prefix check |
| `FlowTemplate.CheckCreate` | packages/shared/src/validators/flow-template.validators.ts:24-55 | the refinement reports exactly the broken rules: shared queue, indices that are no permutation of 1 to n, shared desk |
| `FlowTemplate.CheckIndices` | packages/shared/src/validators/flow-template.validators.ts:35-45 | the loop with its break over the sorted copy answers whether the indices are a permutation of 1 to n |
| `FlowTemplate.SortedTellsSequential` | packages/shared/src/validators/flow-template.validators.ts:35-45 | position by position comparison after sorting decides the permutation, duplicates and gaps included |
| `FlowTemplate.SetSizeTellsDistinct` | packages/shared/src/validators/flow-template.validators.ts:25-27 | a set is as large as the list it was made from if and only if the list is free of duplicates |
| `FlowTemplate.OrderDoesNotMatter` | packages/shared/src/validators/flow-template.validators.ts:24-55 | permuting the steps does not change the issues |
| `Slug.SlugJoinsWords` | packages/shared/src/utils/slug.ts:7-15 | the rewrite passes compute: drop foreign characters from the lowercase text, split into maximal words, join by single hyphens |
| `Slug.WordsSplit` | packages/shared/src/utils/slug.ts:11-14 | every text is its words with gaps of separators around them, none empty between two words: no word could be longer |
| `Slug.OnlyWords` | packages/shared/src/utils/slug.ts:11-14 | and no other list of words does so |
| `Slug.ResultIsSlug` | packages/shared/src/utils/slug.ts:3-15 | no capital, no foreign character, no leading, trailing or double hyphen in any result |
| `Slug.FixedPointsAreSlugs` | packages/shared/src/utils/slug.ts:7-15 | a text is unchanged if and only if it is a slug, so the rewrite is idempotent |
| `Slug.BetweenWords` | packages/shared/src/utils/slug.ts:11-14 | between two words, a letter or digit stays, white space, underscore and hyphen become one hyphen, and anything else vanishes |
| `Slug.DisplayNumberReads` | packages/shared/src/utils/slug.ts:29-31 | after the prefix stand at least three digits, more only if needed, and they read as the number |
| `Slug.DisplayNumbersDiffer` | packages/shared/src/utils/slug.ts:29-31 | display numbers under one prefix are equal only for equal numbers, beyond three digits too |
| `ApiClient.Request` | packages/frontend-core/src/api/createApiClient.ts:68-197 | the request wrapper, in both of its variants, performs the events and has the outcome of the specification |
| `ApiClient.FetchesAndRefreshes` | apps/loyalty/src/lib/api.ts:200-246 | for every sequence of replies, the exact number of fetches (one, one more if and only if a GET met a transient failure, one more if and only if a refresh was called for and worked) and of refreshes, and that the last reply decides the outcome |
| `ApiClient.AtMostThreeFetches` | apps/loyalty/src/lib/api.ts:158-295 | hence never more than three fetches and one refresh |
| `ApiClient.ResendNeedsRefresh` | apps/loyalty/src/lib/api.ts:203-246 | a request other than a GET is sent again only after a 401 and a successful refresh, and with the new token |
| `ApiClient.SessionEndsIff` | apps/loyalty/src/lib/api.ts:217-255 | the session ends if and only if the final status is 401, a token was sent, and refresh was impossible or answered invalid |
| `ApiClient.FirstBearer` | apps/loyalty/src/lib/api.ts:168-190 | the token of the first fetch: none if authentication is skipped, else the manual one, else the stored one; a blank manual token counts as none in the shared wrapper alone |
| `ApiClient.SecondFetch` | packages/frontend-core/src/api/createApiClient.ts:111-122 | the same fetch is repeated at once exactly for a GET that may be retried and the statuses 429, 502, 503 and 504 |
| `ApiClient.RefreshAskedIff` | apps/loyalty/src/lib/api.ts:217-233 | a refresh is asked for exactly on a 401 to a request with the stored token, outside the six sign-in paths |
| `ApiClient.FetchAfterRefresh` | apps/loyalty/src/lib/api.ts:233-238 | a fetch follows the refresh exactly if it succeeded and left a token, and carries that token |
| `ApiClient.OutcomeIsLastReply` | packages/frontend-core/src/api/createApiClient.ts:108-196 | the last reply is returned for the statuses 200 to 299 and thrown for the others |
| `ApiClient.RefreshGate.RefreshAccessToken` | apps/loyalty/src/lib/api.ts:104-144 | joins the attempt in flight or starts one; an impersonating caller is refused at once |
| `ApiClient.RefreshGate.Resolve` | apps/loyalty/src/lib/api.ts:136-141 | the end of an attempt clears the variable and reaches every caller that joined |
| `ApiClient.OverlapSharesAttempt` | apps/loyalty/src/lib/api.ts:96-144 | over any run, all waiting callers share the one attempt in flight, and attempts started equal attempts settled plus that one |
| `ApiClient.SettleReachesAll` | apps/loyalty/src/lib/api.ts:108-143 | when the attempt settles, each caller that joined it receives that result, and none is left waiting |
| `ApiClient.AskJoinsOrStarts` | apps/loyalty/src/lib/api.ts:104-110 | a caller who impersonates is refused, another joins the attempt in flight, or starts the next |
| `AuthStore.AuthStore.constructor` | packages/frontend-core/src/auth/createAuthStore.ts:46-50 | signed out, no backup |
| `AuthStore.AuthStore.DoSetAuth` | packages/frontend-core/src/auth/createAuthStore.ts:51-54 | token and user replaced, backup kept |
| `AuthStore.AuthStore.DoSetTokensFromRefresh` | packages/frontend-core/src/auth/createAuthStore.ts:55-57 | token replaced, user and backup kept |
| `AuthStore.AuthStore.DoUpdateUser` | packages/frontend-core/src/auth/createAuthStore.ts:58-62 | the patch is spread over the user, if there is one |
| `AuthStore.AuthStore.DoBeginImpersonation` | packages/frontend-core/src/auth/createAuthStore.ts:63-76 | what becomes of token, user and backup, in each branch |
| `AuthStore.AuthStore.DoExitImpersonation` | packages/frontend-core/src/auth/createAuthStore.ts:77-87 | what becomes of token, user and backup, in each branch |
| `AuthStore.AuthStore.DoClearSession` | packages/frontend-core/src/auth/createAuthStore.ts:88-107 | signed out, backup dropped; logout does the same to the state |
| `AuthStore.AuthStore.DoRehydrate` | packages/frontend-core/src/auth/createAuthStore.ts:144-158 | the merge with what was persisted |
| `AuthStore.BackupsAreRealSessions` | packages/frontend-core/src/auth/createAuthStore.ts:63-107 | in every run a stored backup has a token and a user that is not impersonating |
| `AuthStore.BackupIsLast` | packages/frontend-core/src/auth/createAuthStore.ts:66-68 | over any mix of begins, refreshes, patches and rehydrations the backup is the session before the last begin that found a token and a user not impersonating |
| `AuthStore.ExitRestoresIff` | packages/frontend-core/src/auth/createAuthStore.ts:55-87 | after a first begin and any such mix, empty tokens and patches of the impersonation flag included, exit restores token and fields if and only if that last begin saw the original ones |
| `AuthStore.ExitRestoresSession` | packages/frontend-core/src/auth/createAuthStore.ts:55-87 | in an ordinary run, where tokens are not empty and patches leave the impersonation flag alone, only the first begin saves, so the original token and user are back; the user is the very same if and only if its impersonation key was there and undefined |
| `AuthStore.EmptyTokenLosesSession` | packages/frontend-core/src/auth/createAuthStore.ts:63-76 | with an empty impersonation token the original session can be lost |
| `AuthStore.FlagPatchLosesSession` | packages/frontend-core/src/auth/createAuthStore.ts:58-76 | a patch that clears the impersonation flag loses the original session at the next begin |
| `AuthStore.RehydrateOnlyAdds` | packages/frontend-core/src/auth/createAuthStore.ts:144-158 | rehydrating a live session keeps each of its fields; the impersonation flag comes from storage exactly when the session has no such key |
| `AuthStore.PlainActions` | packages/frontend-core/src/auth/createAuthStore.ts:51-107 | what signing in, refreshing, patching and signing out change, key by key, and what they leave |
| `SentryPii.ScrubValue` | packages/shared/src/utils/sentry-pii.ts:9-24 | the walk, on any graph, cyclic or not, ends and returns the specified copy |
| `SentryPii.ScrubEntries` | packages/shared/src/utils/sentry-pii.ts:15-23 | the loop fills the copy of an object key by key, in any order |
| `SentryPii.ScrubEntry` | packages/shared/src/utils/sentry-pii.ts:17-21 | one key of the copy: redacted if sensitive, otherwise the scrubbed child |
| `SentryPii.KeepsVisited` | packages/shared/src/utils/sentry-pii.ts:9-24 | along every path without sensitive keys the copy has the original value, the same array length or the same keys, and the truncation mark nine levels down |
| `SentryPii.DepthIsBounded` | packages/shared/src/utils/sentry-pii.ts:10 | no path into a copy is longer than nine steps |
| `SentryPii.SensitiveIsRedacted` | packages/shared/src/utils/sentry-pii.ts:16-19 | at no depth does a sensitive key hold anything but the redaction mark |
| `SentryPii.SensitiveKeys` | packages/shared/src/utils/sentry-pii.ts:1-2 | a key is sensitive if and only if it contains one of the fourteen words, in any case |
| `SentryPii.MarksAreLiteral` | packages/shared/src/utils/sentry-pii.ts:10-17 | the texts of the two marks, and that the ninth level is the first truncated |
| `SentryPii.ScrubTwice` | packages/shared/src/utils/sentry-pii.ts:5-24 | scrubbing a payload that unfolds to a scrubbed tree returns that tree unchanged |
| `SentryPii.TreeHasGraph` | packages/shared/src/utils/sentry-pii.ts:9-24 | every tree is the unfolding of some object graph |
| `SentryPii.ScrubAgain` | packages/shared/src/utils/sentry-pii.ts:5-24 | so for every payload the result of scrubbing is a payload itself, and scrubbing it returns it unchanged |
| `TenantCache.QueryCache.PatchTenantStatusInCaches` | apps/admin/src/lib/tenant-mutation-cache.ts:28-52 | every cached page is patched, the cached detail gets the status, and nothing else changes |
| `TenantCache.PatchKeepsDifference` | apps/admin/src/lib/tenant-mutation-cache.ts:39-51 | for a tenant on the page, counter minus recount of the page is unchanged, for both counters |
| `TenantCache.CountersStayExactIff` | apps/admin/src/lib/tenant-mutation-cache.ts:39-51 | exact counters of the whole list stay exact if and only if the tenant is on the page or was active |
| `TenantCache.RepeatChangesNothingIff` | apps/admin/src/lib/tenant-mutation-cache.ts:39-51 | patching again changes nothing if and only if the tenant is on the page or is being activated |
| `TenantCache.PatchedStatus` | apps/admin/src/lib/tenant-mutation-cache.ts:47 | the patched tenant has the status by name, and the others on the page are as they were |
| `TenantCache.CountersMove` | apps/admin/src/lib/tenant-mutation-cache.ts:43-49 | one counter rises and the other falls by one, never below zero, and neither moves if the status stays |

## Left out

- `Intl.DateTimeFormat`: a zone is an arbitrary function from integer milliseconds to whole-minute offsets; historical offsets with seconds are excluded.
- BranchHours.ZonedDateTimeToUtc: the parts of a date or time that are used are decimal digits or empty; other text, of which JavaScript makes an invalid `Date` or reads as signed, fractional or hexadecimal numbers, is not modelled.
- DayRanges.RangesTile: JavaScript dates end in the year 275760; the rows on dates and days speak of all years, as if they did not.
- BranchHours.ShownOnceByWallClock: where one of the times is skipped or repeated on the date, the rows on the solver say what the bound is.
- Branch messages, and the reason `no_schedule`, which neither evaluator returns.
- RedisPubSub.ReplayIsListeners: every subscribe call brings its own callback; reconnection and automatic resubscription by the Redis client, and callbacks that subscribe or tear down while a message is being delivered, are not modelled.
- RefreshLock.MutualExclusion: acquiring the lock is one atomic step, although the code reads and then writes localStorage; the hypothesis on the TTL is the code's own assumption.
- RefreshLock.WaitForPeerRefresh: timers sleep at least their 150 ms and the clock does not go back.
- ImpersonationHandoff.LaunchUrlRoundTrip: JSON text and UTF-8 are a codec whose parser inverts its writer; the branch with `btoa` and `atob` is modelled, not the lenient base64 decoder of Node's `Buffer`.
- The mapping of a handoff to a session, which fills in default names.
- NotificationWorker.Worker.ProcessJob: template substitution, the SMS footer, log metadata and error texts are left out; each attempt meets at most one failing store operation, and the notification row may be gone.
- NotificationWorker.DeadLetteredIffExhausted: stalled jobs and a failing write to the dead-letter queue are left out; the queue's default for attempts is a parameter.
- SmsUsage.CacheIsEarlierCount: one organisation, and a cache that starts empty; keys evicted or made unreadable in Redis, threshold alerts and the pending count are left out.
- GuidedSetup.ValidateGuidedMultiSteps: `toUpperCase` is modelled on ASCII letters; the messages are fault names with a step index.
- FlowTemplate.CheckCreate: the rules across steps only; field lengths, UUID formats and the update schema are left out.
- Slug.FixedPointsAreSlugs: `toLowerCase` is a parameter that leaves no ASCII capital and keeps slug texts; random suffixes and pairing codes are left out.
- Slug.DisplayNumbersDiffer: natural numbers below the point where JavaScript prints an exponent.
- ApiClient.Request: bodies, headers other than the token, toasts, error reporting and the pages on which ending the session is suppressed are left out; how a refresh ends is a parameter.
- AuthStore.ExitRestoresSession: a patch that sets an ordinary field to undefined is not modelled; redirects, cookies, storage and the loyalty app's own variant of the store are left out.
- SentryPii.KeepsVisited: an own key `__proto__` is modelled as dropped from the copy; that it would set the prototype of the copy is left out.
- TenantCache.QueryCache.PatchTenantStatusInCaches: the patches of plan and feature flags, and the other fields of a tenant, are left out.
- The loyalty ledger, redemption and ticket services, all user interface code, and constant tables.
