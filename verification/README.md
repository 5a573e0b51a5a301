# absolute-automation-app: the outbound WhatsApp pipeline, in Dafny

This project models the core of an Express/MySQL back office for a coaching
institute. The core is the pipeline that sends WhatsApp messages and the pure
helpers around it:

- the per-sender rate tracker (`whatsapp_tracking`);
- the pending-message queue and how it is filled for an audience;
- the drain loop that walks the senders, posts through the Pinger gateway
  client, deletes what was delivered and reports a per-sender summary;
- the five-step nurture schedule for new leads and its daily sweep;
- enquiry intake: CSV rows, phone normalisation and de-duplication, and single
  enquiries;
- the call-recording file-name parser, the clean-up of recordings older than a
  week, and the daily call report;
- the small utilities: the `handleError` log / notify / throw policy, the
  response envelopes, the required-field validator, the access-token
  middleware and the epoch-to-MySQL date-time conversion.

Every database table is an immutable Dafny sequence. A query failure is an
input (`fault: Option<Js.Error>`). "Today", "now", `NODE_ENV` and the other
environment variables are parameters. The gateway's HTTP answers and the
Drive delete calls are oracles. An asynchronous call becomes a
`Js.Settled<T>`, which is either `Resolved(value)` or `Rejected(error)`.
`handleError` becomes a decision over the resolved environment: with its
default flags it throws exactly when `NODE_ENV` is `development` or unset.
This one fact decides whether every "log and carry on" branch carries on.
In production `handleError` also awaits a notice to management. That notice
first looks up the `DEFAULT_WHATSAPP_NUMBER` sender, and a miss there calls
`handleError` again, which looks it up again: the call then never settles.
`Js.Awaited<T>` adds that outcome (`Hangs`). The lookup chain, bounded by the
pool's ten connections, is `Tracking.InstanceLookup`, and
`Messaging.HandleErrorAwaited` says when a production `handleError` settles. The
other members assume the default lookup hits.

The modules follow the source files:

| module | source |
|---|---|
| `ResponseHelpers` | src/utils/responseHelpers.js |
| `Validation` | src/utils/validationHelpers.js |
| `AccessToken` | src/middlewares/validateAccessToken.js |
| `DateTimeFormat` | src/utils/dateTimeUtils.js |
| `PingerClient` | src/integrations/pingerApiClient.js |
| `Messaging` | src/services/whatsappMessagingService.js |
| `Tracking` | src/repositories/waTrackingRepository.js |
| `QueueStore` | src/repositories/whatsappMessageQueueRepository.js |
| `QueueService` | src/services/whatsappQueueService.js |
| `BulkDispatch` | src/services/bulkMessageService.js |
| `NurtureStore` | src/repositories/nurtureScheduleRepository.js |
| `NurtureService` | src/services/nurtureScheduleService.js |
| `EnquiryStore` | src/repositories/enquiryRepository.js |
| `EnquiryService` | src/services/enquiryService.js |
| `CallRecordings` | src/services/googleDriveService.js (the pure helpers and `deleteOldFiles`) |

The foundation modules are `Wrappers` (`Option`), `Seqs` (filter, map, fold,
sum, sort), `Text` (substring search, `String.prototype.replace` with a
string pattern, digits, `trim`), `Calendar` (proleptic Gregorian day numbers,
`YYYY-MM-DD` and `DD-MM-YYYY`) and `Js` (truthiness, errors, settled promises,
and the key order of `Object.keys`/`Object.entries`).

## Model

| member | source | states |
|---|---|---|
| ResponseHelpers.SuccessResponse | src/utils/responseHelpers.js:13-24 | the envelope is `{success: true, data, message}` with the given status, and it has no `errors` key |
| ResponseHelpers.ErrorResponse | src/utils/responseHelpers.js:38-52 | the envelope is `{success: false, data: null, message, errors}` with the given status; `shouldThrow` is never read |
| ResponseHelpers.EnvelopeDefaults | src/utils/responseHelpers.js:13-18 | the defaults are `null`, `'Operation successful'`, 200 and `'An error occurred'`, 500, `null` |
| ResponseHelpers.ResolveEnv | src/utils/responseHelpers.js:66 | an unset or empty `NODE_ENV` reads as `development`; any other value is kept |
| ResponseHelpers.HandleError | src/utils/responseHelpers.js:58-112 | a recursive call does nothing; otherwise it writes two log lines, notifies management iff `sendToWhatsApp` and the env is production, and throws the supplied error (or `new Error(message)`) iff the env is development without `forceNoThrow`, or production with `shouldThrow` |
| ResponseHelpers.DefaultThrowsOnlyInDevelopment | src/utils/responseHelpers.js:58-111 | with its default flags `handleError` throws exactly when `NODE_ENV` is `development` or unset |
| ResponseHelpers.TestNeverThrows | src/utils/responseHelpers.js:86-111 | under `test` nothing is thrown or sent, whatever the flags |
| ResponseHelpers.ForceNoThrowOutsideProduction | src/utils/responseHelpers.js:104-111 | `forceNoThrow` suppresses every throw outside production |
| ResponseHelpers.NotificationFailureAbsorbed | src/utils/responseHelpers.js:92-100 | the recursive call made when the notice fails neither logs, nor notifies, nor throws |
| ResponseHelpers.Await | src/utils/responseHelpers.js:104-111 | an awaited `handleError` rejects exactly when it throws, and with the thrown value |
| ResponseHelpers.Recover | src/repositories/waTrackingRepository.js:40-45 | a catch block that awaits `handleError` and returns a fallback rejects with the caught error exactly in development, and otherwise resolves to the fallback |
| ResponseHelpers.Rethrow | src/repositories/enquiryRepository.js:122-132 | a catch block that awaits `handleError` and then rethrows always rejects with the caught error |
| ResponseHelpers.ServiceIsTransparent | src/services/waTrackingService.js:18-25 | a repository that rejects only in development passes through a service's catch-and-wrap unchanged |
| Validation.FirstFalsy | src/utils/validationHelpers.js:10-17 | the position found holds a falsy value and every earlier one a truthy value; none is found iff all are truthy |
| Validation.OrderHasSameKeys | src/utils/validationHelpers.js:10 | `Object.entries` visits exactly the object's own keys |
| Validation.ValidateRequiredFields | src/utils/validationHelpers.js:10-19 | the result is true iff no response is written iff every value is truthy; otherwise the one 400 response names a key whose value is falsy |
| Validation.ReportsFirstInInsertionOrder | src/utils/validationHelpers.js:10-17 | when no key looks like an array index, the key reported is the first falsy one in insertion order |
| Validation.EmptyIsValid | src/utils/validationHelpers.js:10-19 | an empty field object is valid and writes nothing |
| AccessToken.ValidateAccessToken | src/middlewares/validateAccessToken.js:16-27 | an unset or empty expected token gives the 500 response; otherwise `next()` is called iff the header or the body token equals it, and every other request gets the 401 response |
| AccessToken.EmptyTokenNeverMatches | src/middlewares/validateAccessToken.js:16-18 | with no configured token, no request is let through, even one whose token is empty |
| AccessToken.EitherPlaceSuffices | src/middlewares/validateAccessToken.js:21-23 | the token in either place suffices, whatever the other place holds |
| DateTimeFormat.TimeOfDayParts | src/utils/dateTimeUtils.js:9-10 | hour, minute and second are in range, and together with the day they rebuild the instant less its milliseconds |
| DateTimeFormat.ClockRoundTrip | src/utils/dateTimeUtils.js:9-10 | the `HH:MM:SS` text is 8 characters and reads back as the time of day less its milliseconds |
| DateTimeFormat.IsoHead | src/utils/dateTimeUtils.js:10 | for a four-digit year the first 19 characters of `toISOString` are the date, `T` and the clock |
| DateTimeFormat.ReplaceSeparator | src/utils/dateTimeUtils.js:10 | `replace('T', ' ')` changes exactly the separator when the date part holds no `T` |
| DateTimeFormat.ToMySqlDateTimeShape | src/utils/dateTimeUtils.js:8-11 | for a four-digit UTC year the result is the 19-character `YYYY-MM-DD HH:MM:SS`, and it reads back as the instant with its milliseconds dropped |
| DateTimeFormat.ExampleOctober2021 | tests/utils/dateTimeUtils.test.js:17-24 | `1633072800000` converts to `2021-10-01 07:20:00` |
| DateTimeFormat.NotANumberThrows | src/utils/dateTimeUtils.js:8-10 | an argument that `new Date(arg)` reads as an invalid time (`TimeArg.NotANumber`), such as the text `'invalid'`, makes the conversion throw a `RangeError` |
| DateTimeFormat.ToMySqlDateTime | src/utils/dateTimeUtils.js:8-11 | the conversion throws exactly for a `NaN` time or one beyond the ±8.64e15 ms range, and what it throws is `RangeError: Invalid time value` |
| PingerClient.BuildPayload | src/integrations/pingerApiClient.js:18-31 | the payload always carries number, type, message, instance and token; `media_url` is present iff the type is `media` and the URL is truthy, and `filename` only alongside it and when truthy |
| PingerClient.Classify | src/integrations/pingerApiClient.js:43-70 | a confirmed `remoteJid` gives the success sentence; a failed request or an answer with no body gives `undefined`; every other answer gives a string starting `Failed to send message: ` |
| PingerClient.SendMessage | src/integrations/pingerApiClient.js:6-71 | the payload carries the number, type, text, instance and token, and the media URL and file name only for a media message with a URL; the result is `undefined` iff nothing readable came back, and carries the dispatcher's marker iff the gateway confirmed a `remoteJid` or echoed the marker in its own text |
| PingerClient.FailureMarkerIffText | src/integrations/pingerApiClient.js:58-63 | a failure string contains the dispatcher's marker iff the gateway's own text does |
| PingerClient.SuccessCarriesMarker | src/integrations/pingerApiClient.js:51-55 | every success sentence contains `message successfully sent to number` |
| PingerClient.ObjectFailureLacksMarker | src/integrations/pingerApiClient.js:58-63 | the failure string for an object answer does not contain the marker |
| PingerClient.MarkerClassifies | src/integrations/pingerApiClient.js:44-63 | the marker test on a result holds exactly for a confirmed delivery, or for a failure whose gateway text itself contains the marker |
| PingerClient.ClassifyGroup | src/integrations/pingerApiClient.js:99-121 | the group call gives `undefined` iff the request failed, the group success sentence on a confirmed `remoteJid`, and `Failed to send message.` otherwise |
| PingerClient.GroupResultIffDelivered | src/integrations/pingerApiClient.js:99-121 | a group result names the group delivery iff the gateway confirmed a `remoteJid` |
| Messaging.NormalizeNumber | src/services/whatsappMessagingService.js:45 | a 10-character number gets the `91` prefix and any other length passes unchanged |
| Messaging.Personalize | src/services/whatsappMessagingService.js:50 | with a truthy name, exactly the first `{Name}` is replaced; without a name, or without the tag, the message is unchanged |
| Messaging.SendMessage | src/services/whatsappMessagingService.js:28-65 | a falsy number, message or instance rejects with the guard's text before any post; otherwise the payload carries the normalised number, the personalised text, the instance, the type and the token, and forwards the media URL and file name exactly when the type is media and the URL is truthy; the call resolves to the client's classified result |
| Messaging.TenDigitNumberGetsCountryCode | src/services/whatsappMessagingService.js:44-45 | `1234567890` becomes `911234567890` |
| Messaging.GuardIsTheOnlyRejection | src/services/whatsappMessagingService.js:37-64 | a send rejects iff a required field is missing: the client never rejects, so the rethrow is unreachable |
| Messaging.SendGroupMessage | src/services/whatsappMessagingService.js:66-92 | nothing is posted, and the result is `null`, iff the message or instance is missing or the group id is blank after trim; otherwise the result is the client's group result |
| Messaging.GetDefaultInstanceId | src/services/whatsappMessagingService.js:95-114 | an instance is returned iff the lookup succeeds and the first row for `DEFAULT_WHATSAPP_NUMBER` has one, and it is that row's instance; otherwise `null` |
| Messaging.GetDefaultInstanceIdAwaited | src/services/whatsappMessagingService.js:95-114 | the lookup never settles iff the env is production and the default lookup misses (always so when `DEFAULT_WHATSAPP_NUMBER` is unset); otherwise it resolves to `GetDefaultInstanceId`'s result |
| Messaging.HandleErrorAwaited | src/utils/responseHelpers.js:85-101 | a `handleError` call never settles iff it notifies management and the default lookup misses; otherwise it settles as `ResponseHelpers.Await` says |
| Messaging.SendMessageToManagement | src/services/whatsappMessagingService.js:10-26 | nothing is sent without a default instance; otherwise the notice goes to the group or to the management number as asked |
| Messaging.GroupNoticeConfirmedIffDelivered | src/services/whatsappMessagingService.js:10-26 | with an instance and a non-blank group, the notice posts the text to that group, and its result names the group delivery iff the gateway confirmed a `remoteJid` |
| Messaging.UnsetManagementNumberEscapes | src/services/whatsappMessagingService.js:20-24 | with `MANAGEMENT_WHATSAPP_NUMBER` unset, the non-awaited send rejects in the guard and the rejection escapes every `catch` |
| Messaging.NotifyAwaited | src/utils/responseHelpers.js:87-100 | with the send awaited, a failed notice is absorbed and nothing escapes |
| Tracking.Snapshot | src/repositories/waTrackingRepository.js:23-32 | the snapshot holds exactly the rows last reset before today, or today and below their cap, with a stale row's count read as 0 |
| Tracking.GetAvailableNumbers | src/repositories/waTrackingRepository.js:8-49 | without a fault the call returns the snapshot; after a fault it rejects with that error exactly in development and otherwise yields `null` |
| Tracking.SnapshotHeadroom | src/repositories/waTrackingRepository.js:25-29 | every snapshot sender has headroom, except a stale sender whose cap is 0 |
| Tracking.ExcludedRows | src/repositories/waTrackingRepository.js:29 | rows dated after today, and rows at their cap today, are never selected |
| Tracking.FirstFor | src/repositories/waTrackingRepository.js:55-62 | the row found is the first with that phone; none is found iff no row has it |
| Tracking.GetInstanceDetails | src/repositories/waTrackingRepository.js:52-78 | the first matching row; with none, development rejects with the not-found error and other environments yield `null` |
| Tracking.InstanceLookup | src/repositories/waTrackingRepository.js:52-78 | a lookup made while `depth` connections are held settles, when it does, as `GetInstanceDetails`; with the pool used up it never settles |
| Tracking.InstanceLookupHangs | src/repositories/waTrackingRepository.js:52-78 | below the pool's limit, a lookup hangs iff in production it misses and so does the default lookup its notice makes, or that lookup would need an eleventh connection |
| Tracking.GetInstanceDetailsAwaited | src/repositories/waTrackingRepository.js:52-78 | a fresh lookup never settles iff in production both its own lookup and the default lookup miss; otherwise it settles as `GetInstanceDetails` |
| Tracking.SetCount | src/repositories/waTrackingRepository.js:138-141 | every row of that phone gets the count and the date, and every other row is unchanged |
| Tracking.SetCountIdempotent | src/repositories/waTrackingRepository.js:138-141 | writing the same count and date twice is writing it once |
| Tracking.UpdateTracking | src/repositories/waTrackingRepository.js:124-153 | an absolute set plus today's date stamp; after a fault the table is unchanged and the call rejects only in development |
| Tracking.UpdateTrackingDefault | src/repositories/waTrackingRepository.js:124 | the count defaults to 1 |
| Tracking.UpdateTrackingIdempotent | src/repositories/waTrackingRepository.js:124-153 | repeating an update changes nothing more |
| Tracking.FirstForUnchanged | src/repositories/waTrackingRepository.js:58-139 | updates never change which row a phone lookup finds |
| Tracking.GetMessageLimitStatus | src/repositories/waTrackingRepository.js:81-121 | as written: a found row is always reset, since the driver's `Date` is never `!==`-equal to the date string, so the call reports 0 and writes 0 and today's UTC date; when that UPDATE fails the table is unchanged and the call yields `null`, or rejects with the failure in development; with no row, development rejects with the not-found error and other environments yield `null`; a failed SELECT leaves the table unchanged |
| Tracking.GetMessageLimitStatusByDate | src/repositories/waTrackingRepository.js:81-121 | with the dates compared as dates: a row dated today is reported as stored and the table is untouched; a row dated other than today is reset to 0 and reported as 0, or, when the UPDATE fails, left as it was with `null` (a rejection in development); the missing-row and SELECT-failure paths are as written |
| Tracking.LimitStatusForgetsTodaysCount | src/repositories/waTrackingRepository.js:99-109 | for a row already reset today with a positive count, the as-written check reports 0 and rewrites the table, where the date comparison reports the stored count and writes nothing |
| Tracking.LimitStatusStableWithinDay | src/repositories/waTrackingRepository.js:99-111 | with the dates compared as dates, a second check on the same day reports the same status and writes nothing, so an UPDATE failure cannot touch it |
| QueueStore.NewRows | src/repositories/whatsappMessageQueueRepository.js:17-30 | one stored row per entry, in order, with consecutive ids and only name, phone, message, media URL, filename and status; priority and branch are not stored |
| QueueStore.Insert | src/repositories/whatsappMessageQueueRepository.js:8-42 | an empty list returns at once and changes nothing; otherwise the rows are appended all or nothing, a failure rejects with the `ReferenceError` of the missing `handleError` import, and ids stay distinct |
| QueueStore.OldestPending | src/repositories/whatsappMessageQueueRepository.js:49-57 | the rows returned are at most `limit`, in ascending `created_at` |
| QueueStore.OldestPendingMeetsSpec | src/repositories/whatsappMessageQueueRepository.js:49-57 | the query returns at most `limit` pending rows of the table, each at most as often as the table holds it, in ascending `created_at`, all of them when there are fewer, and none is left behind that is older than one returned |
| QueueStore.OldestPendingFromTable | src/repositories/whatsappMessageQueueRepository.js:49-57 | the query returns no row more often than the table holds it |
| QueueStore.GetPending | src/repositories/whatsappMessageQueueRepository.js:45-67 | without a fault the oldest pending rows as above, and the table is not written; with a fault the `ReferenceError` |
| QueueStore.Without | src/repositories/whatsappMessageQueueRepository.js:73 | the rows kept are exactly those with another id |
| QueueStore.Delete | src/repositories/whatsappMessageQueueRepository.js:70-85 | removes exactly the rows with that id; a failure rejects and changes nothing |
| QueueStore.DeleteAbsentIsNoOp | src/repositories/whatsappMessageQueueRepository.js:73 | deleting an absent id leaves the table as it was |
| QueueStore.DeleteKeepsValid | src/repositories/whatsappMessageQueueRepository.js:73 | deleting keeps ids distinct and below the counter |
| QueueStore.WithoutSubsequence | src/repositories/whatsappMessageQueueRepository.js:73 | the surviving rows keep distinct ids |
| QueueService.ClientContactsAsWritten | src/services/clientService.js:5-8 | the client read calls `db.query`, which the pool module does not export, so it always rejects with a `TypeError` |
| QueueService.FromEnquiries | src/services/whatsappQueueService.js:15 | each enquiry contact becomes a contact with the same name and phone, in order |
| QueueService.Audience | src/services/whatsappQueueService.js:13-27 | `EnquiryOnly` is the enquiries, `ClientsOnly` the clients, `Both` the enquiries then the clients; a failed read rejects; any other type selects nothing |
| QueueService.Entries | src/services/whatsappQueueService.js:30-37 | one entry per contact, in order, with the caller's message and media URL, no file name and status `pending` |
| QueueService.InsertEntries | src/services/whatsappQueueService.js:46-52 | an empty list never reaches the store; any other list is the store's insert |
| QueueService.GuardIsRedundant | src/services/whatsappQueueService.js:46-52 | the service's empty-list guard agrees with the store's own on every input |
| QueueService.CreateQueueEntries | src/services/whatsappQueueService.js:10-43 | an unknown audience type calls `handleError`, queues nothing and yields `null` (or rejects in development); a success always reports `Message queue entries created successfully.`; the queue only grows at its end |
| QueueService.ValidAudienceQueuesEveryContact | src/services/whatsappQueueService.js:14-42 | a valid audience that reads cleanly appends exactly one pending row per contact, in audience order, and reports success even when the audience is empty |
| QueueService.ClientAudiencesAlwaysReject | src/services/whatsappQueueService.js:16-21 | as written, `ClientsOnly` and `Both` always reject and queue nothing |
| QueueService.DeleteMessage | src/services/whatsappQueueService.js:68-70 | the id is forwarded unchanged: exactly the rows with that id go |
| BulkDispatch.Bump | src/services/bulkMessageService.js:88-91 | the tally of that phone goes up by one and every other phone's is unchanged; a new phone is added at the end with count 1 |
| BulkDispatch.BumpTotal | src/services/bulkMessageService.js:88-91 | a bump adds exactly one to the tally's total |
| BulkDispatch.BumpKeys | src/services/bulkMessageService.js:88-91 | a bump adds no key other than the phone |
| BulkDispatch.BumpPositive | src/services/bulkMessageService.js:88-91 | no tally entry is ever zero |
| BulkDispatch.BumpDistinct | src/services/bulkMessageService.js:88-91 | the tally keeps one entry per phone |
| BulkDispatch.RequestFor | src/services/bulkMessageService.js:73-81 | the send's type is `media` exactly when the queued row has a media URL |
| BulkDispatch.SendReads | src/services/bulkMessageService.js:73-84 | a send that resolves yields the gateway client's classified result |
| BulkDispatch.Judge | src/services/bulkMessageService.js:73-109 | a message is taken only when its result contains the marker and refused only when it does not; with all required fields, it is taken iff the marker test holds; a guard rejection or a non-string result throws |
| BulkDispatch.Advance | src/services/bulkMessageService.js:103-106 | the index moves on by one only once the count has reached the cap, and the loop breaks when it passes the last sender |
| BulkDispatch.Record | src/services/bulkMessageService.js:84-106 | an accepted send adds one to the running count, tallies the sender, writes the new absolute count with today's date, deletes the message, and advances only at the cap; a failed write or delete aborts the run |
| BulkDispatch.Settle | src/services/bulkMessageService.js:100-106 | after the write: the message is deleted, or the run aborts on a failed delete; only the queue, the deleted ids and the index change |
| BulkDispatch.SendWith | src/services/bulkMessageService.js:83-109 | a taken message is recorded; a refused one changes nothing but goes through `handleError`, which aborts the run only when it throws; a throw aborts the run |
| BulkDispatch.SkipExhausted | src/services/bulkMessageService.js:65-68 | the first sender at or after the index with room left, or past the end when there is none |
| BulkDispatch.Choose | src/services/bulkMessageService.js:62-68 | as written the sender is the one read at the old index, even when the index then moves on; the corrected walk uses the first sender with room; with no sender left the loop breaks, and an empty snapshot throws on destructuring |
| BulkDispatch.Step | src/services/bulkMessageService.js:61-111 | one iteration visits one message and keeps the running counts aligned with the snapshot |
| BulkDispatch.Run | src/services/bulkMessageService.js:61-111 | the loop visits messages in order and stops early only on a `break` or a throw |
| BulkDispatch.ProcessMessageQueue | src/services/bulkMessageService.js:57-122 | the call rejects iff the walk aborted, with the same error; otherwise the summary starts with its header |
| BulkDispatch.AcceptedIdsStep | src/services/bulkMessageService.js:84-100 | the accepted ids grow by a message's id exactly when its result passes the marker test |
| BulkDispatch.BumpKeepsBooks | src/services/bulkMessageService.js:88-100 | one more deletion tallied against a phone keeps the books: total equals deletions, one entry per phone, none at zero, and the queue lacks exactly the deleted ids |
| BulkDispatch.RecordKeepsBooks | src/services/bulkMessageService.js:84-100 | recording an accepted send deletes that message and keeps the books |
| BulkDispatch.SendKeepsLedger | src/services/bulkMessageService.js:83-109 | a send keeps "deleted = accepted so far" together with the books |
| BulkDispatch.StepKeepsLedger | src/services/bulkMessageService.js:61-111 | each iteration that does not throw keeps the ledger |
| BulkDispatch.RunKeepsLedger | src/services/bulkMessageService.js:61-111 | a run that does not throw keeps the ledger |
| BulkDispatch.DeleteIffAccepted | src/services/bulkMessageService.js:84-109 | under either walk, a run that does not throw deletes exactly the visited messages whose result contains the marker, the queue loses exactly those, and the tally adds up to them |
| BulkDispatch.BumpKeepsCaps | src/services/bulkMessageService.js:85-97 | one more send through a sender below its cap keeps every running count equal to its start plus its tally, and within its cap |
| BulkDispatch.RecordKeepsCaps | src/services/bulkMessageService.js:85-106 | recording keeps the caps |
| BulkDispatch.SendKeepsCaps | src/services/bulkMessageService.js:83-109 | sending keeps the caps |
| BulkDispatch.StepKeepsCaps | src/services/bulkMessageService.js:61-111 | an iteration of the corrected walk keeps the caps |
| BulkDispatch.RunKeepsCaps | src/services/bulkMessageService.js:61-111 | the corrected walk keeps the caps over the whole run |
| BulkDispatch.SkipFirstRespectsCaps | src/services/bulkMessageService.js:85-106 | with senders that start within their caps and distinct phones, no sender is credited with more than its cap minus its starting count |
| BulkDispatch.ChoicesAgree | src/services/bulkMessageService.js:62-68 | when the sender at the index has room, both walks choose it |
| BulkDispatch.TakenKeepsFresh | src/services/bulkMessageService.js:85-106 | an accepted send keeps the index on a sender with room and the later senders untouched |
| BulkDispatch.SendKeepsFresh | src/services/bulkMessageService.js:83-109 | so does any send |
| BulkDispatch.StepsAgree | src/services/bulkMessageService.js:61-111 | on a clean snapshot an iteration of the code as written equals one of the corrected walk |
| BulkDispatch.RunsAgree | src/services/bulkMessageService.js:61-111 | on a clean snapshot the two walks run identically |
| BulkDispatch.ReadThenAdvanceRespectsCapsWhenClean | src/services/bulkMessageService.js:62-106 | when every sender starts strictly below its cap and the senders have distinct phones, the code as written walks exactly as the corrected walk and respects every cap |
| BulkDispatch.ReadThenAdvanceOverrunsZeroCap | src/services/bulkMessageService.js:62-68 | as written, a stale sender with cap 0 first in the snapshot is read, skipped, and still used: its tally and tracking count become 1, above its cap, and the sender with room gets nothing |
| BulkDispatch.RunOfOne | src/services/bulkMessageService.js:61-111 | a run over one message ends where its one iteration leaves the cursor |
| BulkDispatch.SkipFirstUsesSenderWithRoom | src/services/bulkMessageService.js:62-68 | on that snapshot the corrected walk sends through the sender with room |
| BulkDispatch.ReportedConcat | src/services/bulkMessageService.js:114-117 | the counts listed for two key lists add up |
| BulkDispatch.ReportedPermutation | src/services/bulkMessageService.js:115 | the listed total does not depend on the order of the keys |
| BulkDispatch.ReportedSkipsOtherKey | src/services/bulkMessageService.js:115-116 | the counts listed for keys other than the first entry's do not depend on that entry |
| BulkDispatch.ReportedOwnKeys | src/services/bulkMessageService.js:114-117 | with one entry per phone, the counts listed for the tally's keys add up to its total |
| BulkDispatch.Summary | src/services/bulkMessageService.js:113-117 | the summary opens with its header, and is the header alone iff no sender was counted |
| BulkDispatch.SummaryCountsDeletions | src/services/bulkMessageService.js:114-117 | in `Object.keys` order, the summary's per-number counts add up to the number of deleted messages |
| BulkDispatch.Capacity | src/services/bulkMessageService.js:18-23 | the fetch limit is the sum of each sender's cap minus its count, and it is never negative on a snapshot |
| BulkDispatch.SnapshotsHaveHeadroom | src/repositories/waTrackingRepository.js:25-29 | no snapshot sender starts above its cap |
| BulkDispatch.Catch | src/services/bulkMessageService.js:50-52 | the outer catch rejects with the caught error exactly in development |
| BulkDispatch.Stopped | src/services/bulkMessageService.js:50-52 | a run that stops in the catch changes neither table and sends no summary |
| BulkDispatch.SummaryRequest | src/services/bulkMessageService.js:41-48 | the summary is a plain text to the report number through the first sender; it passes the guard iff the summary is non-empty and that sender has an instance |
| BulkDispatch.Finish | src/services/bulkMessageService.js:35-49 | the walk runs over the batch; the summary is sent iff the snapshot is non-empty and the walk did not throw, to `918089947074`, with the summary text; a rejection can only happen in development |
| BulkDispatch.Dispatch | src/services/bulkMessageService.js:14-49 | an empty snapshot stops the run in development; the batch is the oldest pending rows up to the capacity; a failed fetch stops the run before any send; outside development the run never rejects |
| BulkDispatch.ProcessBulkMessages | src/services/bulkMessageService.js:10-53 | with the fetch through the queue repository: a failed snapshot changes nothing; otherwise the batch is the oldest pending rows up to the capacity, the tables are those the walk leaves, and the summary reports the walk's tally |
| BulkDispatch.ProcessBulkDeletesAccepted | src/services/bulkMessageService.js:10-117 | after a run whose walk did not throw, the queue has lost exactly the fetched messages the dispatcher accepted, and the summary's counts add up to them |
| BulkDispatch.ProcessBulkMessagesAsWritten | src/services/bulkMessageService.js:26-52 | as written, `whatsappQueueService.getPendingMessages` does not exist: no message is ever sent, tracked or dequeued, and in development the run rejects with the `TypeError` |
| NurtureStore.Coalesce | src/repositories/nurtureScheduleRepository.js:20-25 | `??` falls back only for `undefined` and `null`; an empty string is kept |
| NurtureStore.GuardNeverFires | src/repositories/nurtureScheduleRepository.js:19-34 | after the defaults no parameter is `undefined`, so the early return never happens |
| NurtureStore.NewRow | src/repositories/nurtureScheduleRepository.js:18-26 | the inserted row has the next id, status `pending`, and each field or its default: `No Name`, `No Number`, `No Message`, `low`, today's UTC date; there is no branch column |
| NurtureStore.Schedule | src/repositories/nurtureScheduleRepository.js:8-44 | every call without a fault appends exactly that one row; a fault changes nothing and rejects only in development, with the fault |
| NurtureStore.DueRows | src/repositories/nurtureScheduleRepository.js:49-55 | a row is returned iff it is in the table, on that date, pending, and of that priority when the priority is truthy |
| NurtureStore.GetScheduled | src/repositories/nurtureScheduleRepository.js:47-65 | without a fault the due rows, and the table is not written; after a fault `undefined`, or a rejection in development |
| NurtureStore.MarkRows | src/repositories/nurtureScheduleRepository.js:70-72 | the rows with that id become `sent` and every other row is unchanged |
| NurtureStore.MarkAsSent | src/repositories/nurtureScheduleRepository.js:68-78 | marking changes only the status of the rows with that id; a fault changes nothing and rejects only in development |
| NurtureStore.MarkIdempotent | src/repositories/nurtureScheduleRepository.js:70-72 | marking twice is marking once |
| NurtureStore.ScheduledIsDue | src/repositories/nurtureScheduleRepository.js:18-59 | a message scheduled with a date and a non-empty priority is then returned by the query for that date and priority, after the rows returned before in the model's table order (the SELECT has no `ORDER BY`, so the database's order is not promised) |
| NurtureStore.MarkedIsNotDue | src/repositories/nurtureScheduleRepository.js:49-70 | once marked, a row is never due again |
| NurtureService.Find | src/services/nurtureScheduleService.js:54 | the step found is in the table and has that day; none is found iff no step has it; the first step with the day is the one found |
| NurtureService.StepDate | src/services/nurtureScheduleService.js:82-84 | a follow-up goes out `day - 1` days after the lead's date, as a valid calendar date |
| NurtureService.ScheduleSteps | src/services/nurtureScheduleService.js:81-118 | a lead with an undefined id, name or phone schedules nothing; without store faults each later step appends one row, in table order; a rejection can only happen in development |
| NurtureService.SendWelcome | src/services/nurtureScheduleService.js:53-78 | the day-1 send is attempted iff the environment is `production` or `CAN_SEND_WA_MESSAGE` is set; it is a media message of the welcome text, personalised with the lead's name, to the lead's normalised number through the default instance |
| NurtureService.ScheduleNurtureMessages | src/services/nurtureScheduleService.js:50-119 | the day-1 send happens as above and never decides the outcome; an undefined parameter leaves the schedule untouched; otherwise, without store faults, exactly the four later steps are added with high priority on their dates; only development can reject |
| NurtureService.LaterStepsOfLead | src/services/nurtureScheduleService.js:81-104 | scheduling adds four rows and each belongs to the lead |
| NurtureService.ImmediateSendNeverBlocks | src/services/nurtureScheduleService.js:57-77 | the outcome and the schedule do not depend on the gateway's reply or on whether the day-1 send was attempted |
| NurtureService.FollowUpDatesExample | src/services/nurtureScheduleService.js:10-84 | a lead from 1 September 2023 gets follow-ups on the 3rd, 5th, 7th and 9th |
| NurtureService.ToEntry | src/services/nurtureScheduleService.js:137-146 | each due follow-up becomes a pending, high-priority queue row with its number, name and message and no media |
| NurtureService.MarkAll | src/services/nurtureScheduleService.js:156-158 | exactly the fetched rows whose mark does not fail become `sent`; the rest of the table is unchanged |
| NurtureService.SendScheduled | src/services/nurtureScheduleService.js:122-162 | as written, over the dispatcher that never sends: the sweep rejects iff the fetch fails; no sender's count ever moves; with nothing due nothing changes; a failed queue insert changes nothing; otherwise the due rows are appended to the queue as pending rows and stay there, in development nothing is marked, and elsewhere every due row whose mark succeeds becomes `sent` |
| NurtureService.MarkedSentButStillQueued | src/services/nurtureScheduleService.js:148-158 | outside development each due follow-up whose mark lands is `sent` in the schedule while its queue row, with its number and text, is still pending and no sender was counted |
| NurtureService.SendScheduledCorrected | src/services/nurtureScheduleService.js:122-162 | over the corrected dispatcher: the sweep rejects iff the fetch fails; after a dispatch the queue and tracking tables are those the dispatcher leaves; outside development every due row whose mark succeeds becomes `sent` |
| EnquiryStore.OrNull | src/repositories/enquiryRepository.js:20-30 | `x || null` stores a value iff it is truthy, so an empty string becomes `NULL` |
| EnquiryStore.ToRow | src/repositories/enquiryRepository.js:18-33 | name, phone and lead date are bound as given (only `undefined` becomes `NULL`), the optional columns through `|| null`, and the branch as given |
| EnquiryStore.Failed | src/repositories/enquiryRepository.js:36-82 | a failed query calls back with the error, except in development where `handleError` rethrows and the callback is never called |
| EnquiryStore.Create | src/repositories/enquiryRepository.js:7-42 | without a fault, one row is appended with the next id and reported; after a fault the table is unchanged and no success is reported |
| EnquiryStore.BulkCreate | src/repositories/enquiryRepository.js:45-86 | one statement: without a fault all rows are appended in order with consecutive ids; after a fault, or for an empty list (which the driver rejects as malformed SQL), nothing is written and no success is reported |
| EnquiryStore.ToRowsAt | src/repositories/enquiryRepository.js:56-71 | the `i`-th bound row is the `i`-th data object's with the `i`-th new id |
| EnquiryStore.BulkIsRepeatedCreate | src/repositories/enquiryRepository.js:7-86 | a bulk insert leaves the table as one `create` per element in order would |
| EnquiryStore.UntouchedNumbers | src/repositories/enquiryRepository.js:93-104 | exactly the name and phone of each row whose status is `NULL` or empty are returned, and nothing else |
| EnquiryStore.GetEnquiryNumbers | src/repositories/enquiryRepository.js:89-115 | without a fault the untouched rows' names and phones; after a fault no success |
| EnquiryStore.GetAllPhones | src/repositories/enquiryRepository.js:118-135 | without a fault one phone per row; after a fault a rejection with the fault |
| EnquiryStore.PhonesOf | src/repositories/enquiryRepository.js:127 | the `i`-th phone is the `i`-th row's |
| EnquiryStore.GetNameAndContacts | src/repositories/enquiryRepository.js:138-153 | without a fault each row's name, phone and branch in table order; after a fault a rejection with the fault |
| EnquiryService.Sanitize | src/services/enquiryService.js:158-160 | what is left is printable ASCII only and no longer than the input |
| EnquiryService.SanitizeKeepsExactlyPrintable | src/services/enquiryService.js:158-160 | every printable character survives; a string is unchanged iff it is all printable; cleaning twice is cleaning once |
| EnquiryService.DigitsOnly | src/services/enquiryService.js:88 | `replace(/\D/g, '')` leaves only digits |
| EnquiryService.LastTen | src/services/enquiryService.js:88 | `slice(-10)` is the suffix of length `min(10, length)` |
| EnquiryService.NormalizePhone | src/services/enquiryService.js:88 | the cleaned phone is at most ten digits, and empty for a falsy cell |
| EnquiryService.PhoneValidIff | src/services/enquiryService.js:88-91 | the cleaned phone passes `/^\d{10}$/` iff the cell is truthy and holds at least ten digits; a ten-digit phone is kept as is |
| EnquiryService.LeadDateIsIso | src/services/enquiryService.js:94-101 | the stored date is always `YYYY-MM-DD`: the row's date when it is a strictly valid `DD-MM-YYYY`, otherwise today |
| EnquiryService.LeadDate | src/services/enquiryService.js:94-101 | a strictly valid `DD-MM-YYYY` is stored as the same day in `YYYY-MM-DD`; a stored date other than today's comes only from such a text |
| EnquiryService.Shape | src/services/enquiryService.js:87-120 | a kept row's object: the cleaned phone, the sanitised name or `''`, the trimmed branch or `SPT`, the date as above, and every optional field through `|| null` |
| EnquiryService.FirstsSpec | src/services/enquiryService.js:86-123 | the rows kept are, in file order, exactly the first row of each valid phone not yet stored |
| EnquiryService.FirstOccurrence | src/services/enquiryService.js:91-92 | every new valid phone of the batch has a first row carrying it |
| EnquiryService.Shaper | src/services/enquiryService.js:86-120 | the per-row shaping keeps the cleaned phone |
| EnquiryService.Pick | src/services/enquiryService.js:105-126 | the `k`-th enquiry is the shaped `k`-th kept row |
| EnquiryService.UniqueSpec | src/services/enquiryService.js:84-126 | every kept enquiry has a valid phone not yet stored; no phone is kept twice; every new phone in the batch is kept |
| EnquiryService.Unique | src/services/enquiryService.js:84-126 | every kept enquiry is the shaped form of one of the rows |
| EnquiryService.UniquePhones | src/services/enquiryService.js:105-126 | the kept phones are those of the first rows, in order |
| EnquiryService.KeptIffPresent | src/services/enquiryService.js:91-92 | a new valid phone is kept iff some row carries it |
| EnquiryService.SeenIffEarlier | src/services/enquiryService.js:92 | during the walk `uniqueEnquiries.has(phone)` holds iff an earlier row carried that phone |
| EnquiryService.VisitExtends | src/services/enquiryService.js:86-123 | one `forEach` step extends the result for the rows seen so far to the result with the next row |
| EnquiryService.ForEach | src/services/enquiryService.js:86-125 | the walk only adds to the map it starts from: that map is a prefix of the result |
| EnquiryService.ForEachIsUnique | src/services/enquiryService.js:84-126 | the `Map`-based walk returns exactly the specified kept enquiries |
| EnquiryService.ProcessEnquiryData | src/services/enquiryService.js:79-131 | it rejects iff the read of stored phones fails, with that error; otherwise it returns the kept enquiries against the stored phones |
| EnquiryService.ImportedPhonesAreNew | src/services/enquiryService.js:79-131 | every returned enquiry has a ten-digit phone, none is already stored, and no two share a phone |
| EnquiryService.ToData | src/services/enquiryService.js:105-120 | the object passed to `bulkCreate` has a `branch` but no `branch_id`, so the branch column is bound to `NULL` |
| EnquiryService.BulkInsert | src/services/enquiryService.js:134-155 | nothing to insert resolves with nothing written; otherwise all rows in one statement; a store fault writes nothing, rejects with the fault, or never settles in development (the callback is never called) |
| EnquiryService.ColumnRoundTrip | src/services/enquiryService.js:109-118 | a cleaned optional field passes `|| null` unchanged on its way to the table |
| EnquiryService.ImportedRowsAsCleaned | src/services/enquiryService.js:105-143 | the `i`-th imported row gets the `i`-th new id and the cleaned phone, name, date, email, status and remarks, and a `NULL` branch |
| EnquiryService.ShapedFieldsNonEmpty | src/services/enquiryService.js:109-118 | a cleaned optional field is never the empty string |
| EnquiryService.ToDataWithBranch | src/services/enquiryService.js:103-119 | the data object differs from the branchless one in its branch column alone, which holds the id the lookup gives for the row's branch name |
| EnquiryService.BulkInsertWithBranch | src/services/enquiryService.js:134-155 | as the bulk insert, with each row's branch id looked up by name |
| EnquiryService.ImportDropsBranch | src/services/enquiryService.js:103-119 | as written every imported row's branch is `NULL` |
| EnquiryService.ImportKeepsBranch | src/services/enquiryService.js:103-119 | with the lookup every imported row stores its branch's id |
| EnquiryService.ImportEnquiries | src/services/enquiryService.js:49-155 | a failed read of stored phones rejects and writes nothing; otherwise the kept enquiries are bulk inserted |
| EnquiryService.ImportStoresNewPhones | src/services/enquiryService.js:49-58 | after an import every new valid phone of the file is stored |
| EnquiryService.ReimportAddsNothing | src/services/enquiryService.js:49-140 | importing the same file a second time writes nothing and resolves with nothing |
| EnquiryService.FormDate | src/services/enquiryService.js:21-23 | a strictly valid `DD-MM-YYYY` form date is stored as the same day in `YYYY-MM-DD` |
| EnquiryService.CreateEnquiry | src/services/enquiryService.js:13-46 | a failed branch lookup rejects; a falsy branch id answers `Invalid branch id` and writes nothing; a failed insert writes nothing and reports no success; otherwise one row with the branch id and reformatted date is stored, a strictly valid lead date always has the nurture sequence scheduled for the new id, and whenever that scheduling does not reject (or is skipped) the callback receives the enquiry with its id, whatever the nurture store's faults |
| EnquiryService.CreatedEnquiryIsNurtured | src/services/enquiryService.js:13-46 | a valid enquiry with a name, phone and date is answered with its new id and gets four follow-ups stored under that id |
| CallRecordings.FirstMatch | src/services/googleDriveService.js:104-106 | the match `String.prototype.match` reports is the leftmost one: no index before it matches |
| CallRecordings.DatePart | src/services/googleDriveService.js:110 | the second group is six digits |
| CallRecordings.TimePart | src/services/googleDriveService.js:111 | the third group is six digits |
| CallRecordings.CallerIdentifier | src/services/googleDriveService.js:113-117 | a name is kept as it is; a phone-like group (`/^\+?\d+$/`) loses a leading `+91` and nothing else |
| CallRecordings.DateTextSpec | src/services/googleDriveService.js:120 | `YYMMDD` formats as the date it names, with years 69-99 in the 1900s and 00-68 in the 2000s; an out-of-range month or day formats as `Invalid date` |
| CallRecordings.ClockText | src/services/googleDriveService.js:121 | `HH:mm:ss` is eight characters whose three fields read back as the hour, minute and second |
| CallRecordings.TimeTextSpec | src/services/googleDriveService.js:121 | a time in range reads back field by field, with hour 24 as 00; any other is `Invalid date` |
| CallRecordings.ExtractDetails | src/services/googleDriveService.js:101-135 | details come back only for a name whose tail has the fixed date-and-time layout |
| CallRecordings.ExtractDetailsSpec | src/services/googleDriveService.js:101-135 | details come back iff the pattern matches somewhere in the name; the caller is from the leftmost match, the date and time from the fixed tail; otherwise `null` |
| CallRecordings.SixDigits | src/services/googleDriveService.js:105-121 | six digits whose pairs read back as the three fields |
| CallRecordings.DateDigitsRoundTrip | src/services/googleDriveService.js:120 | a date from 1969 to 2068 written as `YYMMDD` reads back as itself |
| CallRecordings.NameLayout | src/services/googleDriveService.js:104-106 | a name built as `Call recording <who>_<YYMMDD>_<HHmmss>.m4a` ends in the pattern's tail, with the date and time groups in place |
| CallRecordings.NameRoundTrip | src/services/googleDriveService.js:101-135 | for a caller without line breaks, extracting the details of a recording's name gives back its caller identifier, its date, and its time |
| CallRecordings.RecordingDateOfName | src/services/googleDriveService.js:141-147 | a recording has a date iff its name matches and its `YYMMDD` is a real date, and then it is that date |
| CallRecordings.FilesOfDay | src/services/googleDriveService.js:138-151 | a file is kept iff it is in the list and its name yields a valid date equal to the day |
| CallRecordings.RecordingsNotCallers | src/services/googleDriveService.js:138-151 | the day's list, and so the report's count, counts two recordings of one caller twice |
| CallRecordings.FilesOlderThanWeek | src/services/googleDriveService.js:182-196 | a file is kept iff it is in the list and its name's date is before `now` minus one week |
| CallRecordings.OlderThanWeekInDays | src/services/googleDriveService.js:189-193 | in days: more than seven days before today, or exactly seven once today's midnight has passed |
| CallRecordings.TodayIsNotOld | src/services/googleDriveService.js:146-193 | a file of today is never older than a week |
| CallRecordings.BumpLookup | src/services/googleDriveService.js:223-224 | `(t[k] || 0) + 1` raises `k`'s count by one and no other count |
| CallRecordings.BumpKeys | src/services/googleDriveService.js:223-224 | bumping adds no key but `k` |
| CallRecordings.BumpDistinct | src/services/googleDriveService.js:223-224 | bumping keeps every key once |
| CallRecordings.DateKey | src/services/googleDriveService.js:210-214 | a file is counted under its details' date, and only when its name matches |
| CallRecordings.DeleteFrom | src/services/googleDriveService.js:209-232 | a finished loop keeps every date counted so far and adds at most one new date per remaining file |
| CallRecordings.DeleteFromResolves | src/services/googleDriveService.js:209-232 | the loop finishes iff no delete call rejects |
| CallRecordings.DeleteFromCounts | src/services/googleDriveService.js:209-232 | each date's count is the number of files with that date whose delete reported success |
| CallRecordings.DeleteOldFiles | src/services/googleDriveService.js:206-237 | the counts come back iff no delete call rejects; then every date appears once, counts exactly the successful deletes with that date, and nothing else; otherwise `null`, and in development the unawaited `handleError` escapes with the delete's error |
| CallRecordings.OnlyOldDatesCounted | src/services/googleDriveService.js:182-237 | fed the week-old files, every counted date is a real date more than a week before `now` |
| CallRecordings.LinesNotBlank | src/services/googleDriveService.js:164-166 | with at least one entry the report lines are not blank after trimming |
| CallRecordings.DailyCallReport | src/services/googleDriveService.js:160-171 | the text the `try` block builds from a counts object: it always opens with the header and the call count |
| CallRecordings.GenerateDailyCallReport | src/services/googleDriveService.js:159-178 | a text exactly when the counts are an object; for `null` counts `Object.entries` throws a `TypeError`, the call yields `null`, and the un-awaited `handleError` lets that `TypeError` escape in development only |
| CallRecordings.ReportAfterDeletion | src/services/googleDriveService.js:79-87 | after a deletion run the report has a text exactly when no delete call rejected, and its report rejection escapes exactly when the deletion's did |
| CallRecordings.ReportWithoutDeletions | src/services/googleDriveService.js:169-171 | the report is only the header and count iff nothing was deleted |
| CallRecordings.LinesJoined | src/services/googleDriveService.js:165-170 | the loop's lines are the entries joined by newlines plus one trailing newline, which `trim` removes |
| CallRecordings.EntriesInOrder | src/services/googleDriveService.js:164 | with distinct plain keys `Object.entries` returns the entries in insertion order |
| CallRecordings.DateTextIsPlainKey | src/services/googleDriveService.js:120-164 | every date text is a key that `Object.entries` keeps in insertion order |
| CallRecordings.ReportOfDeletions | src/services/googleDriveService.js:159-171 | for such keys the report is the header, the count, the deletion header and the entries' lines in insertion order |
| CallRecordings.DeletionReport | src/services/googleDriveService.js:159-237 | the report of a completed deletion run lists its dates in the order of their first deletion |
| CallRecordings.PhoneNameExample | src/services/googleDriveService.js:101-135 | `Call recording +911234567890_230101_120000.m4a` gives `1234567890`, `2023-01-01`, `12:00:00` |
| CallRecordings.ReportExample | src/services/googleDriveService.js:159-171 | the report for five calls and deletions of 3 and 2 files on two dates, spelled out |

## Left out

- The HTTP layer (app.js, server.js, routes, controllers, the error-handler middleware): Express plumbing; only the envelopes, the validator and the token middleware are modelled.
- src/config/db.js and the logger: connections and log output have no effect on the tables. The pool's limit of ten waiting connections is modelled only where it ends the notice chain (`Tracking.PoolSize`). Log lines are only counted in `ResponseHelpers.HandleError`.
- Concurrency: no locking exists in the code, and every run is modelled as one sequential pass; two overlapping drain runs or sweeps are not.
- Clocks and time zones: "today" and "now" are parameters. The code reads Asia/Kolkata in the tracking repository's snapshot and update, UTC in its limit-status check, in the nurture store and `convertUnixToMySQLDateTime`, and the process-local zone in the nurture sweep and the Drive helpers; the model does not relate these zones to each other.
- `EnquiryService.CreateEnquiry`: moment's lenient parsing is modelled only for strictly well-formed `DD-MM-YYYY` dates; anything else is stored as `Invalid date`. For such an enquiry the code still awaits `scheduleNurtureMessages` (with the day-1 send attempted and follow-up dates computed from an invalid moment), while the model schedules nothing and answers the callback at once, because the follow-up dates and the store's reaction to `Invalid date` are outside the model.
- The nurture texts and videos are kept as data (`NurtureService.Content`); nothing is proved about their wording.
- `CallRecordings.FilesOlderThanWeek` compares against one `now`, while the code calls `moment()` afresh for each file; a run that straddles midnight is not modelled.
- googleDriveIntegration.js (OAuth, listing, `deleteFileFromDrive`), `initiateAuthFlow`, `authenticateAndStoreTokens` and `generateDailyReportService`: thin wrappers over googleapis. Each delete call's outcome is an oracle indexed by the file's position in the list.
- The `catch` blocks of the Drive helpers for names that are not strings: file names are always strings in the model.
- tokenRepository.js: its upsert rests on a unique key that is not in the code.
- csvService.js, cronTasks.js and the system-health report: stream parsing, timers, and OS statistics.
- branchService/branchRepository and clientService: the branch lookup and the client contacts are inputs to the model.
- whatsappQueueService.js:55-65 (`getHighPriorityQueuedMessages`, `getPendingQueuedMessagesWithLimit`): they call repository functions that do not exist, and nothing in the core calls them.
- The forEach of `markMessageAsSent` in the nurture sweep is not awaited: each mark's effect is applied, but the order relative to later work and the unhandled rejections a failing mark raises in development are not.
- `BulkDispatch.Capacity`: its contract states only that the limit is never negative on a snapshot; that it is the sum of the senders' headroom is stated through `BulkDispatch.Dispatch` and `BulkDispatch.ProcessBulkMessages`, whose batch is the oldest pending rows up to it.
- `CallRecordings.RecordingsNotCallers`: the report's "Called Numbers" counts recordings of the day, not distinct callers, as the code does.
- `ResponseHelpers.HandleError`: its effect is what the call does once it settles. In production, with default flags, it settles only when the default sender's lookup hits, as `Messaging.HandleErrorAwaited` states. Every other production "log and carry on" path of the model assumes that lookup hits.
- `Tracking.GetInstanceDetails`: yields `null` on a production miss, which is the outcome only when the default lookup of its notice hits; `Tracking.GetInstanceDetailsAwaited` states when it never settles instead.
- `Messaging.GetDefaultInstanceId`: yields `null` on a production miss, but that call never settles; `Messaging.GetDefaultInstanceIdAwaited` states so.
- `Tracking.InstanceLookup`: assumes no other request holds a pool connection, and that every default lookup of the chain meets the same fault.
- `DateTimeFormat.ToMySqlDateTime`: the argument is a millisecond count or a value `new Date` reads as an invalid time. How `new Date` parses other strings as date text (so `"5"` is not 5 ms) and how it converts `null` or booleans is not modelled.
- The queue store's query failures always surface as `ReferenceError: handleError is not defined`, because whatsappMessageQueueRepository.js uses `handleError` without importing it. The model keeps this as written, and it has no corrected variant.

## Findings

| source | as written | input that shows it | evidently intended | confidence | as-written member | corrected member |
|---|---|---|---|---|---|---|
| src/services/bulkMessageService.js:26-28 | `whatsappQueueService.getPendingMessages` is called, but whatsappQueueService.js defines no such function, so every run that passes the snapshot throws a `TypeError` into the catch | any tracking table with one sender below its limit and any queue | fetch the oldest pending rows through the queue repository's `getPendingMessages` | not executed | BulkDispatch.ProcessBulkMessagesAsWritten | BulkDispatch.ProcessBulkMessages |
| src/services/bulkMessageService.js:62-68 | the sender is read before the limit check advances the index, so the message goes out through the exhausted sender | a stale sender with `daily_limit = 0` ahead of one with room, and one pending message | skip exhausted senders before choosing the one to send through | not executed | BulkDispatch.ReadThenAdvanceOverrunsZeroCap | BulkDispatch.SkipFirstUsesSenderWithRoom |
| src/services/whatsappMessagingService.js:20 | the management notice to a number is not awaited, so its rejection escapes `handleError`'s catch as an unhandled rejection | `MANAGEMENT_WHATSAPP_NUMBER` unset with a default instance | await the send so the recursive `handleError` absorbs the failure | not executed | Messaging.UnsetManagementNumberEscapes | Messaging.NotifyAwaited |
| src/services/clientService.js:6 | `db.query` is not exported by src/config/db.js, so reading client contacts always rejects | audience `ClientsOnly` or `Both` | query through a pool connection and return the clients | not executed | QueueService.ClientAudiencesAlwaysReject | QueueService.ValidAudienceQueuesEveryContact |
| src/services/enquiryService.js:103,119 | the processed row carries `branch`, but `bulkCreate` binds `branch_id`, so every imported enquiry stores a `NULL` branch | any CSV row with a new ten-digit phone | look up the branch id by name, as `createEnquiry` does | not executed | EnquiryService.ImportDropsBranch | EnquiryService.ImportKeepsBranch |
| src/repositories/waTrackingRepository.js:102 | `last_reset_date !== today` compares the `Date` object the driver returns for a `DATE` column with a `YYYY-MM-DD` string, which is never equal, so every check resets the count to 0 and writes it back | a row already reset today with `message_count = 5` | compare the stored date with today as dates, resetting only a row from another day | not executed | Tracking.LimitStatusForgetsTodaysCount | Tracking.LimitStatusStableWithinDay |
