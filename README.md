# QR attendance: audit trail and supporting logic

This project models the core of the QR-code attendance application: its audit trail and the client-side logic around it, written in TypeScript against a Supabase backend.

The audit trail:
- `calculateDiff` computes field-level change sets.
- The in-memory batching queue behind `logAuditChange`, `processBatch`, `flushAuditQueue` and `getAuditQueueStats` holds records until they are written.
- The audited API wrappers decide which audit entry each create, update, delete and bulk import emits.
- The GDPR workflow covers the grace period, recovery, deletion and anonymisation.

The supporting logic:
- HTML escaping and input sanitising.
- The first-match error classifier.
- UTC string normalisation.
- Session labelling and selection.
- The automation jobs that move events through their statuses, create events from templates and archive scans.
- The duplicate-scan guard.
- The notification, developer-settings and changelog stores.
- The signed-to-public avatar URL rewrite.

Modelling conventions:
- Objects whose fields the source updates in place are classes: the audit queue, the audited backend's tables, the stores and the session table. Their methods are proved against pure specification functions, and lemmas state what the source promises about those functions.
- The backend, the clock, generated ids, the browser flag and `localStorage` are parameters.
- A backend call's outcome is a `Response` (`Done` with a value, or `Threw` with a message), an optional error, or an oracle `nat -> bool` that says whether the n-th call throws.
- Backend queries that return rows in an unspecified order take an explicit order, which a ghost `Enumerates` predicate ties to the rows that match.
- The audit timer is a `pending` flag plus an explicit `Tick`.
- `JSON.stringify` is an abstract serialiser parameter `ser`.

## Model

| member | source | states |
|---|---|---|
| AuditLogger.CalculateDiff | src/lib/utils/auditLogger.ts:66-111 | the change set the loops build equals the three-rule specification `Diff` (create, delete, update) |
| AuditLogger.CaptureAfter | src/lib/utils/auditLogger.ts:72-81 | a create captures every field of `after`, each with no old value |
| AuditLogger.CaptureBefore | src/lib/utils/auditLogger.ts:84-93 | a delete captures every field of `before`, each with no new value |
| AuditLogger.CompareKeys | src/lib/utils/auditLogger.ts:96-110 | an update keeps exactly the keys of either side whose serialised values differ |
| AuditLogger.DiffOfCreate | src/lib/utils/auditLogger.ts:72-81 | a create with `after` present gives exactly the keys of `after` with before undefined and after = after[key]; the result is null when `after` has no keys |
| AuditLogger.DiffOfDelete | src/lib/utils/auditLogger.ts:84-93 | a delete with `before` present gives exactly the keys of `before` with after undefined; null when `before` is empty |
| AuditLogger.DiffOfUpdate | src/lib/utils/auditLogger.ts:96-110 | under the update rule a key of either side appears iff the serialisations of its two values differ, carrying both values |
| AuditLogger.DiffOfUpdateInjective | src/lib/utils/auditLogger.ts:96-110 | with an injective serialiser, a key appears iff its two values differ |
| AuditLogger.DiffOfSelf | src/lib/utils/auditLogger.ts:96-110 | comparing a state with itself gives null |
| AuditLogger.DiffWithMissingSide | src/lib/utils/auditLogger.ts:96-110 | a case reaching the update rule with a side absent gives null |
| AuditLogger.DiffNeverEmpty | src/lib/utils/auditLogger.ts:72-110 | no branch returns an empty change set |
| AuditLogger.BuildRecordDefaults | src/lib/utils/auditLogger.ts:212-227 | a new record is not anonymised, has no IP address or user agent, maps a missing or empty reason to null and missing tags to [], and keeps the change set and timestamps |
| AuditLogger.WrittenWithinBatch | src/lib/utils/auditLogger.ts:154-163 | the individual fallback writes write nothing outside the detached batch |
| AuditLogger.WrittenKeepsSucceeded | src/lib/utils/auditLogger.ts:154-163 | each record whose individual insert succeeds is written |
| AuditLogger.WrittenCountsSuccesses | src/lib/utils/auditLogger.ts:154-163 | the individual writes add exactly one record per successful insert |
| AuditLogger.WrittenOnlySucceeded | src/lib/utils/auditLogger.ts:154-163 | every record written individually sits at a batch index whose own insert succeeded |
| AuditLogger.Successes | src/lib/utils/auditLogger.ts:157-162 | the number of successful individual inserts never exceeds the batch length |
| AuditLogger.WrittenAll | src/lib/utils/auditLogger.ts:154-163 | when every individual insert succeeds the whole batch is written, in order |
| AuditLogger.ProcessBatchOnEmptyQueue | src/lib/utils/auditLogger.ts:143 | processing an empty queue changes nothing |
| AuditLogger.ProcessBatchWritesHead | src/lib/utils/auditLogger.ts:145-152 | a successful batch writes the first min(50, length) records in FIFO order and leaves the rest queued in order |
| AuditLogger.FallbackWritesIndividually | src/lib/utils/auditLogger.ts:154-163 | on a batch error with fallback, the batch leaves the queue; every record whose own insert succeeds is appended, every appended record is one of those, and the log grows by exactly the number of successful inserts, so failed records are dropped |
| AuditLogger.ThrownBatchIsRequeued | src/lib/utils/auditLogger.ts:170-174 | when the insert throws, the batch goes back at the head in its order, so the state is unchanged |
| AuditLogger.ErrorWithoutFallbackRequeuesTwice | src/lib/utils/auditLogger.ts:164-173 | without fallback, an insert error puts the batch back at the head twice, so the queue grows by the batch length |
| AuditLogger.ProcessBatchConserves | src/lib/utils/auditLogger.ts:142-175 | outside the error path, no record is lost or duplicated across the queue and the log |
| AuditLogger.LogBelowThreshold | src/lib/utils/auditLogger.ts:230-238 | below 50 queued records, logging appends the record and re-arms the single timer |
| AuditLogger.LogAtThreshold | src/lib/utils/auditLogger.ts:230-234 | reaching 50 queued records processes a batch immediately and leaves the timer as it was |
| AuditLogger.LogAllBelowThreshold | src/lib/utils/auditLogger.ts:230-238 | a run of logs that stays below 50 only appends, in order, with the timer armed |
| AuditLogger.FullBatchFlushesImmediately | src/lib/utils/auditLogger.ts:230-238 | the 50th record of a fresh queue triggers a write of all 50 |
| AuditLogger.LogAllSplit | src/lib/utils/auditLogger.ts:204-245 | logging a sequence is logging its parts one after the other |
| AuditLogger.LogAndTickKeepArmed | src/lib/utils/auditLogger.ts:180-238 | logging and timer runs preserve "a non-empty queue has an armed timer" |
| AuditLogger.TickRearmsWhileNonEmpty | src/lib/utils/auditLogger.ts:180-189 | after a timer run the timer is armed iff records remain |
| AuditLogger.FlushCanLeaveRecordsWithoutTimer | src/lib/utils/auditLogger.ts:321-325 | flushing 51 records with a successful insert leaves one queued with no timer armed |
| AuditLogger.AuditQueue.constructor | src/lib/utils/auditLogger.ts:49-58 | the queue starts empty with no timer |
| AuditLogger.AuditQueue.ProcessBatch | src/lib/utils/auditLogger.ts:142-175 | the new queue, timer and log equal the batch transition `ProcessBatchSpec` |
| AuditLogger.AuditQueue.ScheduleBatchProcess | src/lib/utils/auditLogger.ts:180-189 | arms the single timer and changes nothing else |
| AuditLogger.AuditQueue.Tick | src/lib/utils/auditLogger.ts:183-188 | a timer run processes one batch and re-arms while records remain |
| AuditLogger.AuditQueue.LogAuditChange | src/lib/utils/auditLogger.ts:204-245 | a failed actor lookup returns a failure result and leaves the state untouched; otherwise exactly one built record is appended and the threshold rule applies |
| AuditLogger.AuditQueue.FlushAuditQueue | src/lib/utils/auditLogger.ts:321-325 | cancels the timer, drains one batch, and reports the remaining queue length as `processed` |
| AuditLogger.AuditQueue.GetAuditQueueStats | src/lib/utils/auditLogger.ts:330-337 | reports queue size, batch size 50 and interval 30000, with isFull iff length ≥ 50 |
| AuditedApi.EventTypeEntityId | src/lib/api/auditedApi.ts:312 | an event-type entity id is "type-" followed by the decimal id |
| AuditedApi.ImportEntry | src/lib/api/auditedApi.ts:417-431 | a bulk import logs one 'import' entry with id 'bulk-import', no before state, after.count = number of items and the reason text |
| AuditedApi.AuditedBackend.constructor | src/lib/api/auditedApi.ts:16-19 | the settings cache starts with auditing on and GDPR mode off, and nothing emitted |
| AuditedApi.AuditedBackend.SyncSettings | src/lib/api/auditedApi.ts:22-27 | the cache copies the two flags from the developer settings and nothing else changes |
| AuditedApi.AuditedBackend.Log | src/lib/api/auditedApi.ts:72-82 | hands exactly one entry to the audit logger |
| AuditedApi.AuditedBackend.MembersUpsert | src/lib/api/auditedApi.ts:54-86 | returns the backend's result unchanged; logs 'create' without a before state whenever the `getById` lookup throws (also for an existing member) and 'update' with before = the row `getById` returned (which need not equal the stored row) otherwise, with after = the saved row; logs nothing when disabled or when the upsert throws |
| AuditedApi.JoinedGroupsAlwaysChange | src/lib/api/auditedApi.ts:62-78 | an update entry whose before state carries the joined `groups` and whose after state lacks it always reports a `groups` change, removed, in its change set |
| AuditedApi.AuditedBackend.MembersDelete | src/lib/api/auditedApi.ts:91-128 | logs 'delete' with the row `getById` returned as the before state, or with no before state when the lookup throws; a failed delete throws and logs nothing |
| AuditedApi.AuditedBackend.CreateEvent | src/lib/api/auditedApi.ts:146-166 | logs a 'create' keyed by the new event id with the auto-system tag |
| AuditedApi.AuditedBackend.UpdateEventStatus | src/lib/api/auditedApi.ts:175-205 | logs 'update' with reason "Status changed to <status>" only when the pre-fetch returned the row (a failed pre-fetch logs nothing); the update replaces an existing row and never adds one |
| AuditedApi.AuditedBackend.DeleteEvent | src/lib/api/auditedApi.ts:214-249 | logs 'delete' only when the pre-fetch returned the row; a failed pre-fetch logs nothing |
| AuditedApi.AuditedBackend.UpdateEvent | src/lib/api/auditedApi.ts:254-289 | logs 'update' only when the pre-fetch returned the row; the update replaces an existing row and never adds one |
| AuditedApi.AuditedBackend.EventTypesCreate | src/lib/api/auditedApi.ts:303-323 | logs a 'create' for entity 'event', id "type-<id>", with the event-type tags |
| AuditedApi.AuditedBackend.EventTypesUpdate | src/lib/api/auditedApi.ts:328-363 | logs an 'update' with id "type-<id>" only when the pre-fetch returned the type; the update replaces an existing row and never adds one |
| AuditedApi.AuditedBackend.EventTypesDelete | src/lib/api/auditedApi.ts:368-403 | returns true whenever the delete does not throw, and logs only when the pre-fetch returned the type |
| AuditedApi.AuditedBackend.BulkImport | src/lib/api/auditedApi.ts:410-437 | returns success with imported = number of items whether or not auditing is on, and logs one entry only when it is |
| Gdpr.UpdateWhere | src/lib/utils/gdprCompliance.ts:120-127 | an update filtered by id changes exactly the rows with that id, in place |
| Gdpr.DeleteWhere | src/lib/utils/gdprCompliance.ts:182-185 | a delete filtered by id removes exactly the rows with that id |
| Gdpr.RowsWithId | src/lib/utils/gdprCompliance.ts:166-170 | the rows a lookup by id selects |
| Gdpr.SingleRow | src/lib/utils/gdprCompliance.ts:166-174 | `.single()` yields a row with that id, and no row unless exactly one matches |
| Gdpr.AnonymiseMember | src/lib/utils/gdprCompliance.ts:189-194 | sets the anonymised flag on exactly the member's audit records |
| Gdpr.CeilDiv | src/lib/utils/gdprCompliance.ts:223-224 | the quotient rounded up, as `Math.ceil` |
| Gdpr.Pending | src/lib/utils/gdprCompliance.ts:221-227 | canPermanentlyDelete iff now ≥ deadline; days = ceil((deadline − now) / one day), or 0 without a deadline |
| Gdpr.MarkedRows | src/lib/utils/gdprCompliance.ts:212-215 | the query keeps exactly the marked members |
| Gdpr.PendingDeletions | src/lib/utils/gdprCompliance.ts:208-232 | a failed query gives an empty list; otherwise one entry per marked member, in request order |
| Gdpr.PendingDeletionsListsMarked | src/lib/utils/gdprCompliance.ts:208-227 | the list holds exactly the marked members, ascending by request time |
| Gdpr.ArchiveResult | src/lib/utils/gdprCompliance.ts:238-260 | a missing, empty or failed result counts as zero archived and zero remaining |
| Gdpr.GdprStore.constructor | src/lib/utils/gdprCompliance.ts:120-121 | the store holds the given members and audit records |
| Gdpr.GdprStore.MarkMemberForDeletion | src/lib/utils/gdprCompliance.ts:106-134 | on success, marks the member with request time now, a deadline thirty days later and a reason defaulting to 'User requested'; on failure returns false and changes nothing |
| Gdpr.GdprStore.RecoverMarkedMember | src/lib/utils/gdprCompliance.ts:140-157 | on success, clears exactly the three deletion fields; on failure returns false |
| Gdpr.GdprStore.PermanentlyDeleteMember | src/lib/utils/gdprCompliance.ts:163-203 | returns true iff the member pre-fetch succeeds, the member exists, is marked and past its deadline, and the delete succeeds; a failed pre-fetch returns false with nothing changed; it then removes the row and anonymises the audit records, and a failed anonymise keeps the true result |
| Gdpr.MarkSetsDeadline | src/lib/utils/gdprCompliance.ts:106-127 | the stored deadline is request time + 30·24·60·60·1000 ms and the reason defaults to 'User requested' |
| Gdpr.RecoverUndoesMark | src/lib/utils/gdprCompliance.ts:106-150 | recovering an unmarked-then-marked member gives back the original rows |
| Gdpr.MarkedMemberNotYetDeletable | src/lib/utils/gdprCompliance.ts:176-179 | during the grace period a freshly marked member is still before its deadline |
| Gdpr.AnonymiseKeepsHistory | src/lib/utils/gdprCompliance.ts:189-194 | anonymising changes only the flag, and every record of that member ends up flagged |
| Gdpr.PendingCountdown | src/lib/utils/gdprCompliance.ts:223-226 | before the deadline at least one day remains and deletion is refused; from the deadline on it is allowed |
| Security.EscapeHtml | src/lib/utils/security.ts:10-22 | '' for a missing or empty input; no <, >, " or ' in the output; text without special characters is unchanged |
| Security.EscapeRemovesMarkup | src/lib/utils/security.ts:13-22 | the escaped text holds none of <, >, " and ' |
| Security.EscapeKeepsPlainText | src/lib/utils/security.ts:22 | only & < > " ' are replaced, so '/' and every other character stays |
| Security.UnescapeEntity | src/lib/utils/security.ts:13-20 | each entity of the map decodes back to its character |
| Security.EscapeRoundTrip | src/lib/utils/security.ts:10-22 | decoding the entities recovers the original text, so escaping loses nothing |
| Security.RemoveIgnoringCase | src/lib/utils/security.ts:40-44 | removing a pattern case-insensitively never adds characters or length |
| Security.WordRun | src/lib/utils/security.ts:41 | `\w+` matches the longest leading run of ASCII word characters |
| Security.HandlerMatch | src/lib/utils/security.ts:41 | a match of `on\w+=` spans at least four characters |
| Security.RemoveHandlers | src/lib/utils/security.ts:41 | removing event-handler attributes never adds characters |
| Security.Cleaned | src/lib/utils/security.ts:36-44 | the escaped and cleaned text holds no <, >, " or ' |
| Security.SanitizeText | src/lib/utils/security.ts:32-51 | '' for falsy input; no markup characters; at most maxLength characters, or exactly maxLength + 3 ending in '...' when truncated |
| Security.KeepIdChars | src/lib/utils/security.ts:63 | only [A-Za-z0-9_-] survive, the result is never longer, and the text comes back unchanged exactly when it is already made of allowed characters |
| Security.KeepIdCharsAppend | src/lib/utils/security.ts:63 | the global replace works character by character: filtering a concatenation is filtering each part, so every allowed character is kept, in order |
| Security.SanitizeId | src/lib/utils/security.ts:59-64 | the output contains only [A-Za-z0-9_-] and has at most 100 characters; it is the first min(n, 100) characters of the filtered id, so a clean id of at most 100 characters is returned unchanged |
| Security.KeepIdCharsOfIdIsIdentity | src/lib/utils/security.ts:63 | an id already made of allowed characters is unchanged |
| Security.SanitizeIdIdempotent | src/lib/utils/security.ts:59-64 | sanitising twice equals sanitising once |
| Security.IndexOf | src/lib/utils/security.ts:75 | the first position of a character, or none when it does not occur |
| Security.EmailShapeGivesPattern | src/lib/utils/security.ts:75-76 | a local part, '@', and a domain with an inner '.' satisfies the email pattern |
| Security.PatternGivesEmailShape | src/lib/utils/security.ts:75-76 | a match of the pattern, with its '@' and '.', has the email shape |
| Security.EmailShapeMatchesPattern | src/lib/utils/security.ts:72-77 | the email shape and the pattern agree in both directions |
| Security.IsValidEmail | src/lib/utils/security.ts:72-77 | true iff the trimmed input matches `^[^\s@]+@[^\s@]+\.[^\s@]+$` |
| Security.FixedErrorTextsAreSafe | src/lib/utils/security.ts:86-108 | the two fixed error texts contain no character that escaping changes |
| Security.SanitizeErrorMessage | src/lib/utils/security.ts:85-113 | 'An error occurred' for falsy input, the generic message when the extracted text holds 'stack' or 'at ', and otherwise exactly `sanitizeText(message, 200)`: safe text of at most 203 characters |
| Security.ExtractedMessage | src/lib/utils/security.ts:89-104 | a string is taken as is; an object gives its string `message`, else its string `msg`, else the generic text; any other value gives the generic text |
| Security.PlainMessageKept | src/lib/utils/security.ts:85-113 | a short error text without markup, schemes, handlers, stack hints or surrounding white space is shown exactly as written, whether thrown as a string or as `message` |
| Security.UnchangedMessageShown | src/lib/utils/security.ts:107-112 | a message `sanitizeText` leaves unchanged and without stack hints is what the user sees |
| Security.PlainTextKept | src/lib/utils/security.ts:32-52 | `sanitizeText` returns plain text within the limit unchanged |
| Security.PlainTextCleaned | src/lib/utils/security.ts:36-44 | escaping, the four removals and trimming leave plain text without surrounding white space unchanged |
| Security.RemoveAbsentPattern | src/lib/utils/security.ts:40-43 | a `javascript:`, `data:` or `vbscript:` removal changes nothing in text without ':' |
| Security.RemoveHandlersWithoutEquals | src/lib/utils/security.ts:41 | the `on\w+=` removal changes nothing in text without '=' |
| ErrorFormat.AccessRuleTests | src/lib/utils.ts:60-91 | the permission and auth rules fire on exactly their substrings and codes |
| ErrorFormat.ConstraintRuleTests | src/lib/utils.ts:94-129 | the duplicate, foreign-key and check-constraint rules fire on exactly their substrings |
| ErrorFormat.ClientRuleTests | src/lib/utils.ts:131-191 | the network, validation, camera and device-permission rules fire on exactly their substrings |
| ErrorFormat.ServerRuleTests | src/lib/utils.ts:193-246 | the storage, file-size, server and not-found rules fire on exactly their substrings and codes |
| ErrorFormat.FirstMatchOfLaterRules | src/lib/utils.ts:164-246 | the scan from the camera rule on returns the first rule that fires |
| ErrorFormat.FirstMatchOfRules | src/lib/utils.ts:60-162 | the scan returns the first rule that fires, in source order |
| ErrorFormat.FormatErrorFollowsTable | src/lib/utils.ts:43-252 | `formatError` equals first-match classification over the ordered rule table |
| ErrorFormat.FalsyIsUnknown | src/lib/utils.ts:45-51 | null or undefined gives title 'Unknown Error' and code 'UNKNOWN' |
| ErrorFormat.Pgrst301IsPermissionDenied | src/lib/utils.ts:60-91 | code PGRST301 always gives PERMISSION_DENIED and never the auth error |
| ErrorFormat.SessionIsAuthError | src/lib/utils.ts:60-89 | a message with 'session' and none of the permission triggers gives AUTH_ERROR |
| ErrorFormat.FallbackKeepsOriginal | src/lib/utils.ts:248-252 | with no rule firing, the original message and code are kept, with the default text and 'UNKNOWN' when empty |
| ErrorFormat.FirstMatchIsRuleOutcome | src/lib/utils.ts:60-246 | a match is the outcome of some rule of the table |
| ErrorFormat.FormatErrorFilled | src/lib/utils.ts:43-252 | every formatted error has a non-empty title, message and code |
| ErrorFormat.ClassifyFilled | src/lib/utils.ts:43-252 | every outcome of the table and of the fallback is filled |
| ErrorFormat.GetErrorMessage | src/lib/utils.ts:258-261 | equals the message of `formatError`, which is never empty |
| ErrorFormat.GetErrorTitle | src/lib/utils.ts:266-269 | equals the title of `formatError`, which is never empty |
| Time.EnsureUtc | src/lib/utils/time.ts:9-28 | '' stays ''; strings with 'Z', '+' or '-00:' are unchanged; a space and no 'T' becomes 'T' plus 'Z'; 'T' without a zone gets 'Z'; anything else is unchanged |
| Time.RewrittenEndsInZ | src/lib/utils/time.ts:13-25 | every rewritten string ends in 'Z' |
| Time.EnsureUtcIdempotent | src/lib/utils/time.ts:9-28 | applying it twice equals applying it once |
| Sessions.TranslationFor | src/lib/utils/sessions.ts:303 | an unknown locale falls back to the English table |
| Sessions.BeforeDash | src/lib/utils/sessions.ts:294 | the language tag up to its first '-' |
| Sessions.NormalisedTimestamp | src/lib/utils/sessions.ts:309-317 | always ends in 'Z': an ISO string already ending in 'Z' is kept, another ISO string gets 'Z' appended, and a PostgreSQL string has its first space made 'T' and 'Z' appended |
| Sessions.OffsetTimestampDiffersFromEnsureUtc | src/lib/utils/sessions.ts:309-311 | an ISO string with a '+hh:mm' offset gets 'Z' appended after the offset, where `ensureUTC` keeps it unchanged |
| Sessions.RelativeLabel | src/lib/utils/sessions.ts:329-340 | negative or under a minute gives 'now'; then the minute, hour and day buckets with floor counts substituted for '{0}'; a week or more falls through to the date |
| Sessions.RecentIsRelativeLabel | src/lib/utils/sessions.ts:329-340 | a timestamp that parses to an instant less than a week ago is shown as the chosen locale's relative label for the elapsed time |
| Sessions.SinceParsed | src/lib/utils/sessions.ts:329-341 | for a parsed instant: the relative label under a week, the locale date with that instant and locale from a week on |
| Sessions.FormatLastActive | src/lib/utils/sessions.ts:298-348 | 'Unknown' without a timestamp; the chosen locale's invalid text when the normalised timestamp does not parse; the locale date exactly when it parses to an instant a week or more in the past, carrying that instant and the chosen locale |
| Sessions.MissingTimestampIsUnknown | src/lib/utils/sessions.ts:299 | a missing or empty timestamp gives 'Unknown' |
| Sessions.UnknownLocaleUsesEnglish | src/lib/utils/sessions.ts:302-303 | an unknown locale labels exactly as English |
| Sessions.EnglishRelativeLabels | src/lib/utils/sessions.ts:262-265 | English relative labels are fixed texts |
| Sessions.EnglishLabelsAreFixed | src/lib/utils/sessions.ts:298-340 | every English label is one of the six fixed texts |
| Sessions.EnglishParsedLabel | src/lib/utils/sessions.ts:298-340 | for a timestamp that parses, the English label is one of the fixed texts, and it is 'Now' under a minute, 'm ago' under an hour, 'h ago' under a day and 'd ago' under a week |
| Sessions.EnglishIsChosen | src/lib/utils/sessions.ts:301-302 | the locale 'en' selects the English table |
| Sessions.EnglishLabelsHaveNoDigits | src/lib/utils/sessions.ts:262-340 | English labels carry no number, because the English strings lack '{0}' |
| Sessions.EnglishLabelHasNoDigit | src/lib/utils/sessions.ts:262-266 | none of the fixed English texts holds a digit |
| Sessions.NoPlaceholder | src/lib/utils/sessions.ts:263-265 | a string without '{' has no '{0}' to replace |
| Sessions.NormalisationAgreesWithEnsureUtc | src/lib/utils/sessions.ts:309-317 | for zone-less strings with 'T' or a space, the timestamp normalisation agrees with `ensureUTC` |
| Sessions.DigitRun | src/lib/utils/sessions.ts:28 | `\d+` matches the longest leading digit run |
| Sessions.IosVersion | src/lib/utils/sessions.ts:28 | a captured iOS major version is a non-empty run of digits |
| Sessions.IosVersionOccurs | src/lib/utils/sessions.ts:28 | the captured version occurs in the agent as "iPhone OS <n>_" |
| Sessions.DeviceName | src/lib/utils/sessions.ts:19-29 | the 'iPhone OS n_m' override wins; otherwise the first of iPhone, iPad, Android (Android Device), Mac, Windows (Windows PC) and Linux that occurs, each branch stated, else 'Unknown Device' |
| Sessions.IosAgentIsIphone | src/lib/utils/sessions.ts:20-29 | an agent with an iOS version also contains 'iPhone' |
| Sessions.BrowserName | src/lib/utils/sessions.ts:32-37 | Chrome only without Edge markers, Safari only without Chrome |
| Sessions.MarkCurrentSession | src/lib/utils/sessions.ts:128-131 | marks the first session current in place and changes nothing else |
| Sessions.GetUserSessions | src/lib/utils/sessions.ts:107-138 | [] when not authenticated or on a failed query, otherwise the fetched list with the first marked current |
| Sessions.OnlyFirstIsCurrent | src/lib/utils/sessions.ts:128-131 | only the first (most recent) session is current, and the others are unchanged |
| Sessions.ActiveOf | src/lib/utils/sessions.ts:177-182 | the query keeps exactly the user's active sessions |
| Sessions.Ids | src/lib/utils/sessions.ts:194 | the ids of the sessions, in order |
| Sessions.Deactivate | src/lib/utils/sessions.ts:196-200 | deactivates exactly the user's rows whose id is listed |
| Sessions.SessionTable.constructor | src/lib/utils/sessions.ts:168 | the table holds the given rows |
| Sessions.SessionTable.DeleteAllOtherSessions | src/lib/utils/sessions.ts:168-212 | false and no change without a user or on a failed fetch; true and no change with at most one session; otherwise deactivates all but the first |
| Sessions.OthersDeactivated | src/lib/utils/sessions.ts:189-200 | other users' rows are untouched; the newest session stays active and is the only one of the user's sessions that does |
| Sessions.OnlyNewestStaysActive | src/lib/utils/sessions.ts:193-200 | any of the user's sessions still active afterwards is the newest |
| Sessions.NewestStaysActive | src/lib/utils/sessions.ts:193-200 | the newest session stays active |
| Automation.Step | src/lib/logic/automation.ts:96-105 | upcoming with start ≤ now < end becomes ongoing; ongoing with now ≥ end becomes completed; only the status changes, and only by those two rules |
| Automation.MissedEventStaysUpcoming | src/lib/logic/automation.ts:105 | an upcoming event whose end has passed is untouched |
| Automation.StepIdempotent | src/lib/logic/automation.ts:96-104 | each event gets at most one transition per run |
| Automation.StatusRunSteps | src/lib/logic/automation.ts:85-110 | a run leaves every event as it was or stepped once, and steps every active event when no update throws |
| Automation.StepAllIdempotent | src/lib/logic/automation.ts:85-110 | a second run at the same instant changes nothing |
| Automation.Rows | src/lib/logic/automation.ts:40 | the fetched templates, in the given order |
| Automation.Missing | src/lib/logic/automation.ts:50-53 | the templates still to create are a subsequence of the day's templates |
| Automation.MissingMembers | src/lib/logic/automation.ts:50-53 | a template is created iff its type id matches no existing event on that date |
| Automation.CreateAllAddsFromTemplates | src/lib/logic/automation.ts:50-80 | existing events are kept, and each new event has a fresh id and comes from a template with its type id and name, the date, status 'upcoming', is_custom false and empty metadata |
| Automation.TypeIdsOnInsert | src/lib/logic/automation.ts:47-51 | inserting an event for the date adds its type id to that date's type ids |
| Automation.CreateAllCovers | src/lib/logic/automation.ts:50-57 | with no failures, one event is created per missing template |
| Automation.CreationJobIdempotent | src/lib/logic/automation.ts:47-57 | after a run without failures, no template of the day is missing any more |
| Automation.NothingMissing | src/lib/logic/automation.ts:51-53 | when every template's type already exists, nothing is created |
| Automation.MissingFrom | src/lib/logic/automation.ts:50-53 | the template loop visits the templates one at a time, in order |
| Automation.CreateAllCons | src/lib/logic/automation.ts:55-80 | one template step: create the event, or stop the job on an error |
| Automation.Processed | src/lib/logic/automation.ts:124-131 | archival stops at the first call that throws |
| Automation.ArchivalProcessesPending | src/lib/logic/automation.ts:115-132 | only completed events with pending scans are processed, each once, and all of them when nothing throws |
| Automation.EventStore.constructor | src/lib/logic/automation.ts:9 | the store holds the given events and templates |
| Automation.EventStore.RunStatusUpdateJob | src/lib/logic/automation.ts:85-110 | a failed fetch changes nothing; otherwise the events equal the status run over the active events |
| Automation.EventStore.RunEventCreationJob | src/lib/logic/automation.ts:31-61 | nothing happens without templates for the day or on a failed query; otherwise the missing templates are created until an error stops the job |
| Automation.EventStore.RunArchivalJob | src/lib/logic/automation.ts:115-132 | records the processed events in order and changes no event; a failed query processes none |
| Attendance.MatchCount | src/lib/api/attendance.ts:46-65 | counts the rows of a table (pending scans or present rows) for the member and event, at most the table size; zero iff none exists |
| Attendance.MatchCountAppend | src/lib/api/attendance.ts:76-83 | an inserted row raises the count for its own member and event only |
| Attendance.MaybeSingle | src/lib/api/attendance.ts:51 | `.maybeSingle()` gives no row for zero matches and a row for one; errors otherwise |
| Attendance.ScanSucceedsOnlyWhenFresh | src/lib/api/attendance.ts:44-88 | a scan succeeds iff no call fails and the member has no pending scan and no present row, and it then inserts exactly one scan; otherwise nothing is inserted |
| Attendance.PendingCheckedFirst | src/lib/api/attendance.ts:46-71 | a member with a pending scan gets the pending message whatever the present table holds |
| Attendance.SecondScanRefused | src/lib/api/attendance.ts:46-57 | scanning the same member into the same event again is refused and inserts nothing |
| Attendance.AtMostOnePending | src/lib/api/attendance.ts:44-88 | a member never gets a second pending scan for the same event |
| Attendance.AttendanceTables.constructor | src/lib/api/attendance.ts:44 | the tables hold the given rows |
| Attendance.AttendanceTables.ScanMember | src/lib/api/attendance.ts:44-88 | the result and the new scan table equal the scan specification, and the present table is unchanged |
| Attendance.WithStatus | src/lib/api/attendance.ts:14-31 | the filter keeps exactly the rows with that status |
| Attendance.GetOngoingEvents | src/lib/api/attendance.ts:14-22 | only ongoing events; a query error is thrown |
| Attendance.GetUpcomingEvents | src/lib/api/attendance.ts:27-36 | a query error is thrown |
| Attendance.UpcomingSortedByStart | src/lib/api/attendance.ts:27-36 | the upcoming list holds exactly the upcoming events, ascending by start |
| Ordering.Insert | src/lib/api/attendance.ts:32 | insertion adds exactly one element |
| Ordering.SortBy | src/lib/api/attendance.ts:32 | sorting is a permutation |
| Ordering.InsertSorted | src/lib/api/attendance.ts:32 | insertion keeps a list sorted |
| Ordering.SortBySorted | src/lib/api/attendance.ts:32 | sorting gives an ascending permutation |
| Ordering.SortByMembers | src/lib/utils/gdprCompliance.ts:216 | sorting keeps exactly the same elements |
| Notifications.UnreadCount | src/lib/stores/notifications.ts:57-59 | at most the length, and zero iff every entry is read |
| Notifications.InitialHasOneUnread | src/lib/stores/notifications.ts:6-23 | the initial list holds two notifications, exactly one unread |
| Notifications.MarkedRead | src/lib/stores/notifications.ts:40-43 | sets read only on entries with that id, keeping length and order |
| Notifications.AllRead | src/lib/stores/notifications.ts:45-46 | every entry read, others unchanged |
| Notifications.Removed | src/lib/stores/notifications.ts:48-49 | exactly the entries with other ids remain |
| Notifications.AddedIsUnreadHead | src/lib/stores/notifications.ts:29-39 | add prepends one unread entry with the new id and keeps the rest in order |
| Notifications.RemoveUndoesAdd | src/lib/stores/notifications.ts:29-49 | removing a freshly added entry restores the list |
| Notifications.RemoveKeepsOthers | src/lib/stores/notifications.ts:48-49 | removing an absent id changes nothing |
| Notifications.RemoveKeepsOrder | src/lib/stores/notifications.ts:48-49 | removal keeps the survivors in order |
| Notifications.AllReadHasNoUnread | src/lib/stores/notifications.ts:45-59 | after markAllAsRead the unread count is 0 |
| Notifications.MarkedReadCount | src/lib/stores/notifications.ts:40-59 | marking an id read lowers the count by exactly its unread entries |
| Notifications.UnreadWithId | src/lib/stores/notifications.ts:57-59 | the unread entries with an id are among the unread entries |
| Notifications.NotificationStore.constructor | src/lib/stores/notifications.ts:6-23 | the store starts with the initial list |
| Notifications.NotificationStore.Add | src/lib/stores/notifications.ts:29-39 | prepends one unread entry |
| Notifications.NotificationStore.MarkAsRead | src/lib/stores/notifications.ts:40-43 | the new list is the old one with that id marked read |
| Notifications.NotificationStore.MarkAllAsRead | src/lib/stores/notifications.ts:45-46 | every entry is read |
| Notifications.NotificationStore.Remove | src/lib/stores/notifications.ts:48-49 | the entries with that id are removed |
| Notifications.NotificationStore.Clear | src/lib/stores/notifications.ts:51 | the list is empty |
| DevTools.SavedStateIsRestored | src/lib/stores/dev.ts:33-110 | a persisted state without a mock time is read back exactly by `init` |
| DevTools.NothingSavedGivesInitial | src/lib/stores/dev.ts:16-47 | an absent or unparsable saved state gives the initial state: audit trail on, GDPR off, retention 90 days |
| DevTools.DevStore.constructor | src/lib/stores/dev.ts:16-29 | the store starts in the initial state |
| DevTools.DevStore.Init | src/lib/stores/dev.ts:33-49 | outside the browser nothing changes; inside it, the initial state overlaid with the saved state |
| DevTools.DevStore.SetMockTime | src/lib/stores/dev.ts:50-58 | sets the mock fields and resets every other field to its initial value |
| DevTools.DevStore.ClearMockTime | src/lib/stores/dev.ts:59-67 | clears only the two mock fields |
| DevTools.DevStore.Commit | src/lib/stores/dev.ts:69-110 | sets the state and persists it under 'dev_audit_settings' in the browser |
| DevTools.DevStore.SetAuditTrailEnabled | src/lib/stores/dev.ts:69-75 | changes exactly its field and persists the new state |
| DevTools.DevStore.SetGdprModeEnabled | src/lib/stores/dev.ts:76-82 | changes exactly its field and persists the new state |
| DevTools.DevStore.SetRestrictUndoToAdmin | src/lib/stores/dev.ts:83-89 | changes exactly its field and persists the new state |
| DevTools.DevStore.SetRequireUndoApproval | src/lib/stores/dev.ts:90-96 | changes exactly its field and persists the new state |
| DevTools.DevStore.SetAuditLogRetentionDays | src/lib/stores/dev.ts:97-103 | changes exactly its field and persists the new state |
| DevTools.DevStore.SetAuditBatchingEnabled | src/lib/stores/dev.ts:104-110 | changes exactly its field and persists the new state |
| DevTools.DevStore.ResetAuditSettings | src/lib/stores/dev.ts:111-119 | restores the initial state and removes the saved key |
| Changelog.Split | src/lib/stores/changelog.ts:38 | `split('.')` gives at least one part, none containing the separator |
| Changelog.JoinSplit | src/lib/stores/changelog.ts:38 | joining the parts gives the string back |
| Changelog.DigitValue | src/lib/stores/changelog.ts:38 | a digit's value is at most 9 |
| Changelog.NumberOf | src/lib/stores/changelog.ts:38 | `Number(part)` is always defined: a number or NaN |
| Changelog.NumberOfDigits | src/lib/stores/changelog.ts:38 | a run of digits reads as its decimal value |
| Changelog.ParseVersion | src/lib/stores/changelog.ts:38-39 | one component per dot-separated part |
| Changelog.NewerIsFirstDifference | src/lib/stores/changelog.ts:43-50 | newer iff, at the first index 0..2 where the components differ, the current one is greater |
| Changelog.SameVersionNotNewer | src/lib/stores/changelog.ts:51 | equal versions give false |
| Changelog.NewerIsAsymmetric | src/lib/stores/changelog.ts:43-51 | for numeric versions, newer never holds both ways |
| Changelog.ExtraComponentsIgnored | src/lib/stores/changelog.ts:43 | components past the third do not matter |
| Changelog.NewerThanNothing | src/lib/stores/changelog.ts:40-44 | a missing stored version counts as 0.0.0 |
| Changelog.CompareVersions | src/lib/stores/changelog.ts:43-51 | the loop with its early returns computes the newer-than relation |
| Changelog.NotNewerWhenBelow | src/lib/stores/changelog.ts:47-48 | a smaller component after equal ones settles the answer as false |
| Changelog.ChangelogStore.constructor | src/lib/stores/changelog.ts:10-16 | the dialog starts closed with no entry |
| Changelog.ChangelogStore.ShowChangelog | src/lib/stores/changelog.ts:20-25 | opens the dialog with the entry |
| Changelog.ChangelogStore.CloseChangelog | src/lib/stores/changelog.ts:26-31 | closes the dialog and clears the entry |
| Changelog.ChangelogStore.CheckAndShowChangelog | src/lib/stores/changelog.ts:32-52 | undefined outside the browser; otherwise whether the current version is newer than the stored one, with missing components as 0 |
| AvatarUrl.CaptureEnd | src/lib/utils/avatarUrl.ts:14 | the lazy capture stops at the first '?' or the end, and fails on a line terminator |
| AvatarUrl.MatchFrom | src/lib/utils/avatarUrl.ts:14 | the leftmost match of the signed pattern, with no match before it |
| AvatarUrl.FirstAt | src/lib/utils/avatarUrl.ts:17 | the first occurrence of a separator at or after an index |
| AvatarUrl.BeforeFirst | src/lib/utils/avatarUrl.ts:17 | `split(sep)[0]`: the longest prefix before the first separator |
| AvatarUrl.PublicUrl | src/lib/utils/avatarUrl.ts:13-20 | the public URL built from the leftmost match starts with the part before the first '/storage/' and the public path; none without a match or with an empty path |
| AvatarUrl.EnsureAvatarDownloadParam | src/lib/utils/avatarUrl.ts:6-25 | undefined for null, undefined or ''; a URL without '/sign/' is unchanged; a rewrite starts with the prefix before '/storage/' and the public path |
| AvatarUrl.MatchIsRewritten | src/lib/utils/avatarUrl.ts:10-20 | a URL in which the signed pattern matches with a non-empty object path is rewritten to the part before the first '/storage/', the public path and that object path |
| AvatarUrl.SignMarkerInSignedPath | src/lib/utils/avatarUrl.ts:10-13 | a URL holding the signed path also holds '/sign/', so the pattern is only tried where the '/sign/' guard lets it through |
| AvatarUrl.RewriteDecomposes | src/lib/utils/avatarUrl.ts:13-19 | a rewritten URL is the prefix before the first '/storage/', the public path, and the signed object path cut at the first '?' |
| AvatarUrl.RewriteNeedsMatch | src/lib/utils/avatarUrl.ts:14-19 | a rewrite happens only on a match with a non-empty path |
| AvatarUrl.MatchSplits | src/lib/utils/avatarUrl.ts:13-15 | the leftmost match splits the URL into the part before it, the signed path, the object path and the rest |
| AvatarUrl.SignedUrlSplits | src/lib/utils/avatarUrl.ts:14 | a signed URL splits around the matched path |
| AvatarUrl.EmptyPathUnchanged | src/lib/utils/avatarUrl.ts:14-24 | a signed URL with an empty object path is unchanged |
| AvatarUrl.PrefixHasNoStorageMarker | src/lib/utils/avatarUrl.ts:17 | the kept prefix holds no '/storage/' |
| Strings.ReplaceFirstChar | src/lib/utils/time.ts:19 | `replace(' ', 'T')` keeps the length and changes nothing when the character is absent |
| Strings.Trim | src/lib/utils/security.ts:44 | `trim()` leaves no white space at either end and adds nothing |
| Strings.TrimKeepsTrimmed | src/lib/utils/security.ts:44 | `trim()` leaves text without white space at either end unchanged |
| Strings.NatToString | src/lib/utils/sessions.ts:338-340 | `toString()` of a count is a non-empty run of digits |

Definitions. The following functions carry no contract of their own. They are the reference definitions that the rows above are stated against:
- `AuditLogger.Diff` (src/lib/utils/auditLogger.ts:66-111): the three-rule change set.
- `AuditLogger.BuildRecord` (src/lib/utils/auditLogger.ts:212-227): the stored record.
- `AuditLogger.Written` (src/lib/utils/auditLogger.ts:154-163): the records the individual inserts write.
- `AuditLogger.ProcessBatchSpec` (src/lib/utils/auditLogger.ts:142-175), `AuditLogger.LogSpec` and `AuditLogger.TickSpec` (src/lib/utils/auditLogger.ts:180-245) and `AuditLogger.FlushSpec` (src/lib/utils/auditLogger.ts:321-325): the queue transitions.
- `ErrorFormat.FormatError` (src/lib/utils.ts:43-252): the if-cascade. `ErrorFormat.Classify` and `ErrorFormat.FirstMatch` are its first-match table form, and `ErrorFormat.FormatErrorFollowsTable` proves the two agree.
- `Security.Escape` (src/lib/utils/security.ts:10-23) and its inverse `Security.Unescape`, which `Security.EscapeRoundTrip` relates.
- `Attendance.ScanSpec` (src/lib/api/attendance.ts:44-88): `scanMember` as a function of the two tables, which `Attendance.AttendanceTables.ScanMember` is proved equal to.
- `Automation.StepAll` (src/lib/logic/automation.ts:85-110): the status transition applied to every event at one instant.
- `Automation.StatusRun` (src/lib/logic/automation.ts:85-110): the status job over the fetched rows in order, stopping at the first update that throws.
- `Automation.CreateAll` (src/lib/logic/automation.ts:31-61): the creation job over the missing templates, stopping at the first error.
- `Automation.PendingArchival` (src/lib/api/events.ts:83-111): the completed events that still have rows in `attendance_scans`.
- `Changelog.IsNewer` (src/lib/stores/changelog.ts:37-51): the newer-than order on the first three components, which `Changelog.CompareVersions` computes.
- `Sessions.Translations` (src/lib/utils/sessions.ts:259-289): the four locale tables.
- `Sessions.CurrentLocale` (src/lib/utils/sessions.ts:291-294): `getCurrentLocale`.
- `Sessions.ChosenLocale` (src/lib/utils/sessions.ts:302): `locale || getCurrentLocale()`.
- `Sessions.WithCurrentMarked` (src/lib/utils/sessions.ts:128-131): the session list with its first entry marked current.
- `Sessions.ActiveSessionsOf` (src/lib/utils/sessions.ts:115-120): the user's active sessions, most recent first.
- `Notifications.Initial` (src/lib/stores/notifications.ts:6-22): the two notifications the store starts with.
- `Notifications.Added` (src/lib/stores/notifications.ts:29-39): the list after `add`.
- `DevTools.Saved` (src/lib/stores/dev.ts:72): the state as `JSON.stringify` stores it.
- `DevTools.Restored` (src/lib/stores/dev.ts:33-49): the state `init` sets from the stored settings.
- `Gdpr.Mark` (src/lib/utils/gdprCompliance.ts:122-126) and `Gdpr.Unmark` (src/lib/utils/gdprCompliance.ts:144-148): the fields marking and recovery write.
- `Gdpr.PendingRows` (src/lib/utils/gdprCompliance.ts:212-216): the marked members, oldest request first.

## Left out
- AuditedApi.AuditedBackend.DeleteEvent and AuditedApi.AuditedBackend.UpdateEvent: auditedApi.ts calls `eventsApi.deleteEvent` and `eventsApi.updateEvent`, but events.ts defines neither method. As the source stands, both wrappers throw a `TypeError` after the pre-fetch and never delete, update or log. The model assumes that the backend methods exist and behave like the other event calls (an outcome parameter `Done` or `Threw`), so the `Done` outcome of these two wrappers is something the source as given cannot produce.

- Network I/O: every Supabase call (`from(...)`, `rpc`, `auth`) is a parameter, never a connection. Such a parameter is an outcome, an error, an order, or the row a pre-fetch returned (`prior`, which is `None` when the fetch failed).
- `anonymizeUserAudits`: it only calls the remote function `anonymize_user_audits` and turns its error into `false`. With the function body invisible there is nothing to state about it, so it is not modelled.
- The remote SQL functions `anonymize_user_audits`, `archive_old_audit_logs`, `process_event_attendance` and `generate_recurring_events`: their bodies are not visible. Only how their results are read is modelled.
- Timers: `setTimeout` and `setInterval` are replaced by a `pending` flag and an explicit `Tick`. Async interleaving of logging with an in-flight batch is not modelled.
- `AutomationEngine.start`, `stop` and the interval ids: they only log and clear timers.
- `getUserContext`: the actor is an opaque input that either resolves or throws.
- `JSON.stringify`: it is an abstract serialiser parameter. Its key order and `undefined` handling are not reproduced. The serialiser never fails, so the exception it raises on circular structures or `BigInt` values in `calculateDiff` and `logAuditChange` is not modelled.
- Console logging, in every file.
- `exportUserData`, `getUserDataSummary`, `isGDPRModeEnabled` and the export files `membersExport.ts` and `attendanceExport.ts`: these are document rendering and downloads.
- The rest of `time.ts` (`formatLocalDateTime`, `formatLocalTime`, `convertToUTC`, `formatTimeColumn`, `formatTimeRange`): time-zone arithmetic through `Intl`.
- `deleteSession`, `createSession`, `getIpAndLocation` and the local-storage session helpers: they are thin backend or network calls.
- `toLocaleDateString`: locale-dependent formatting. Timestamps a week or more old yield a `LocaleDate` marker instead of the text.
- Sessions.FormatLastActive: the `catch` path that returns 'Unknown' (sessions.ts:344-347) is not modelled. Two inputs reach it in the source. A malformed locale tag such as `en_US` makes `toLocaleDateString` throw a `RangeError` for a timestamp a week or more old; the model returns a `LocaleDate` with that tag instead of 'Unknown'. A locale naming a key every JavaScript object inherits, such as `constructor`, makes `translations[currentLocale]` truthy but without the label strings; the source then returns `undefined` or throws into the same 'Unknown', while the model falls back to the English table.
- AuditedApi.AuditedBackend.MembersUpsert and AuditedApi.AuditedBackend.MembersDelete: `prior` is any row of a stored member; the model does not build the `groups` join of `membersApi.getById` itself. Because `upsert` returns the row without `groups`, every audited member update in the source reports a `groups` change; AuditedApi.JoinedGroupsAlwaysChange states that effect.
- `Date` parsing: it is a parameter `parse`. An unparsable timestamp gives the locale's 'invalid' text. Whether `new Date` accepts a string such as `...+00:00Z`, which `formatLastActive` builds from an offset timestamp, is therefore not decided.
- `getDeviceInfo`'s browser version suffix is not modelled.
- Sessions.BrowserName: its contract states only the Chrome and Safari conditions.
- `Number()` on exponent, hexadecimal, `Infinity` and fractional forms: the model reads these as NaN. Versions are expected to be dotted integers.
- Changelog.NewerIsAsymmetric: stated only for numeric components, because NaN compares false both ways.
- `AttendanceEvent` timestamps are integers (milliseconds), not ISO strings.
- `createEventFromTemplate`: the `${date}T${time}` string parsed as local time is the parameter `parse`.
- The creation job takes the weekday from the local clock (`getDay`) and the date from UTC (`toISOString`). Both are given as separate inputs, so their disagreement near midnight is not modelled.
- Ties in the `order(...)` sorts: backend ordering of equal keys is unspecified, and the model keeps input order.
- `canPermanentlyDelete` reads the clock a second time in the source. The model uses one instant for both readings.
- `sanitizeText` with a non-integer or negative `maxLength`: the model takes a natural number.
- Security.SanitizeText: lengths and truncation count characters (Unicode scalar values), while JavaScript's `length` and `substring` count UTF-16 code units. Text with characters outside the Basic Multilingual Plane (emoji, say) is therefore truncated later in the model than in the source, and the source can cut a surrogate pair in half. The same holds for the 200-character limit of Security.SanitizeErrorMessage.
- Security.SanitizeText: the removal of `javascript:`, `on…=`, `data:` and `vbscript:` is modelled, but the contract states only the safety and length bounds. A single removal pass can leave a new occurrence formed from the remaining text.
- ErrorFormat.FormatError: `code` and `message` are strings in the model. In utils.ts a non-string `code` such as the number 500 survives `error.code || ''`, and `errorCode.startsWith('500')` then throws a `TypeError` whenever no earlier rule fires. That failure is not modelled, and ErrorFormat.FormatErrorFilled is stated for string-typed inputs only.
- `sanitizeErrorMessage`'s input is one of four kinds: a falsy value, a string, an object with optional string `message` and `msg`, or any other value. The JavaScript truthiness of other values is not modelled.
- `logAuditChange` reads the clock twice, for `timestamp` and `created_at`. The model uses one instant for both.
- `mockTime` is milliseconds rather than a `Date`.
- DevTools.SavedStateIsRestored: stated only for a state without a mock time. dev.ts persists a set `mockTime` with `JSON.stringify` as an ISO string, and `init` spreads that string back, not a `Date`. The model's millisecond field cannot tell the two apart, so the lemma does not claim the round trip for a set mock time.
- The `members` table filtered by column `id` in the GDPR code, while the `Member` type names `member_id`: the schema is not visible. The model keys members by `id` as the queries do.
- Attendance.GetUpcomingEvents: its own contract states only the error case. Ordering and filtering are stated by Attendance.UpcomingSortedByStart.
- `events.ts`, `members.ts` and `event_types.ts`: these are the plain backend API objects that the audited wrappers call. They are abstracted as maps plus outcome parameters.
- `settings.ts`, `onboarding.ts`, `errorHandler.ts`, `cn`, `hooks.server.ts` and the audit-log route handlers are not part of this model.
