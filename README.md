# Learning Observer: scheduling, peer review and monthly reports in Dafny

This project models the core of the Learning Observer Flask application. In
that application, observers record sessions with children, an observation
report is generated from each session, other observers peer-review the
reports, and principals oversee their organisation. The model covers:

- **The daily schedule store** (`Database`). It holds one recurring `HH:MM`
  per (observer, child), written by an update-else-insert. It computes the
  next occurrence of that schedule, the ±30-minute "due" test, the
  processed-today guard over the append-only processing log, and the status
  list that the observer dashboard shows. The methods live on a class `Db`
  whose `seq` fields are the store's tables. A flag `online` stands for
  "the store answered". When it is false, every read behaves as the source
  does on an exception.
- **Time** (`Clock`). An instant is a count of seconds on the local wall
  clock, so a day starts at every multiple of 86400. `ParseClock` reads a
  stored time back the way the source does. `NextOccurrence` is "today at
  that time, or tomorrow if now has reached it". The three windows (due,
  reminder, status page) are kept apart.
- **The reminder job** (`Reminder`). One tick loops over the active
  schedules. A reminder is sent only in the 29–31-minute window, and only
  when no observation of the child by the observer is dated today and both
  user rows exist. It goes through an abstract mail transport (`Mailer`).
  The status page flags a wider 25–35-minute window.
- **The observer routes** (`Observer`). These are:
  - the `set_schedule` form check and the `process_scheduled_report` guard;
  - the peer-review fields and processing-log entry written with each new
    observation, and the audio upload checks;
  - the eligible peer-review pool;
  - the review-page gate, the submission, and the notification to the first
    Principal of the observed author's organisation;
  - the application form check.
- **Listing helpers** (`Listing`). These decide the media kind guessed from a
  file URL and the formatted report read from the stored JSON of an
  observation.
- **Principal routes** (`Principal`). These are the organisation-scoped
  peer-review listing and the guarded mapping and deletion operations.
- **Admin routes** (`Admin`). These are:
  - the CSV bulk uploads, inserted in slices of 50 rows, where a refused
    slice ends the upload and the slices before it stay stored;
  - the case-insensitive parent–child matching;
  - the shape of an admin-processed observation.
- **Upload storage naming** (`Storage`). This covers the object name and
  bucket of the upload helper, in the current copy and in the older
  Final_Obs copy.
- **Small helpers** (`Helpers`). These are the helpers of `utils/helpers.py`.
- **The monthly report generator** (`MonthRange`, `Monthly`). This covers:
  - the month window;
  - the goal-progress filter;
  - the strength and development tallies ranked by count;
  - the mode summaries;
  - the weekly trends;
  - the learning metrics;
  - the fence stripping of the AI reply.
- **The observation extractor** (`Extractor`). This covers:
  - the fallback transcript formatter;
  - the OCR file-type normalisation;
  - the emoji substitution for PDF text;
  - the configuration guard of `send_email`.

`Text`, `Sorting`, `Wrappers` and `Tables` hold shared definitions. These are
ASCII lower-casing, Python's `strip`, `split`, `int()` and `str` of an
integer, a stable descending sort, `Option`, and the table rows.

The file `Final_Obs/learning_observer_flask/models/database.py` is an older
copy of `models/database.py`. The two copies have the same scheduling
functions, line for line. So one model covers both, and the table cites each
copy on a different member. Only the upload naming differs, and it is
modelled twice (`Storage.UploadName`/`Bucket` and
`Storage.LegacyUploadName`/`LegacyBucket`). The older copy of the monthly
report generator matches the current one in every function modelled here,
except that it returns the AI reply without clean-up.

## Model

| member | source | states |
|---|---|---|
| `Clock.DayStart` | models/database.py:427-428 | midnight of the day holding `now`: a multiple of 86400 at most `now` and less than a day before it |
| `Clock.ParseClock` | models/database.py:401-406 | a stored time is read back by `int()` of its first two ':' fields; fewer than two fields, a non-integer field or an hour/minute out of range yields nothing, and a result is always a valid time of day |
| `Clock.Offset` | models/database.py:406 | a valid time of day lies strictly inside one day |
| `Clock.NextOccurrence` | models/database.py:405-414 | the next occurrence is today at the time when now is before it, otherwise tomorrow at the time; it is strictly after now, at most 24 h ahead, and falls on that time of day |
| `Clock.NextOccurrenceUnique` | Final_Obs/learning_observer_flask/models/database.py:285-302 | any instant after now, at most a day ahead, on the scheduled time of day is the next occurrence: the rule has exactly one answer |
| `Clock.ReminderWindowInsideStatusWindow` | main.py:125-130 | every instant in the job's 29–31-minute window is in the status page's 25–35-minute window, and 25 and 35 minutes are flagged only by the status page |
| `Clock.DueAndReminderWindowsDiffer` | models/database.py:528-531 | the dashboard's ±30-minute due window and the job's 29–31-minute window are independent: 31 minutes ahead reminds but is not due, 10 minutes ahead is due but does not remind |
| `Database.UniqueCount` | models/database.py:451-457 | under the one-row-per-pair table invariant, the pair has exactly one row when it has any |
| `Database.SamePairsSameCount` | models/database.py:459-466 | rewriting row fields other than the pair keeps the number of rows for every pair |
| `Database.Upsert` | models/database.py:451-475 | when the pair has rows, only `scheduled_time` and `updated_at` of those rows change, in place; otherwise exactly one active row is appended; afterwards every row of the pair holds the new time, and the table invariant is kept |
| `Database.UniqueCountNone` | models/database.py:457 | a pair without rows counts zero rows |
| `Database.SaveTwiceOneRow` | Final_Obs/learning_observer_flask/models/database.py:339-363 | two saves for the same pair leave exactly one row for it, holding the later time |
| `Database.SetActive` | models/database.py:607-611 | only `is_active` of the pair's rows changes; every other row and every other field is unchanged |
| `Database.RemovePair` | models/database.py:577-581 | exactly the pair's rows are removed, so the table shrinks by that pair's count and keeps every other row |
| `Database.RemovePairConcat` | models/database.py:577-581 | deleting from two joined parts of the table deletes from each part, so the surviving rows keep their table order |
| `Database.RemovePairOrder` | models/database.py:572-587 | in a table with one row per pair, no two rows left after a delete share a pair |
| `Database.FirstActive` | models/database.py:384-394 | the query's first row: an active row of the pair when one exists, nothing exactly when the pair has no active row |
| `Database.NextScheduledTime` | models/database.py:378-418 | no active row yields None; otherwise the next occurrence of the stored time, strictly after now and within 24 h; a time that does not read back yields None, as the caught exception does |
| `Database.LogRow` | models/database.py:484-497 | the log row carries the child, the observer, the report type and now; the observation id is present exactly when one is given and non-empty |
| `Database.ProcessedAfterAppend` | Final_Obs/learning_observer_flask/models/database.py:377-391 | appending one log entry changes the processed-today answer only through that entry |
| `Database.ProcessedUntilMidnight` | Final_Obs/learning_observer_flask/models/database.py:315-330 | after a report is logged, the pair counts as processed at every instant of that day, and the entry does not count on any other day: the window is [today 00:00, tomorrow 00:00) |
| `Database.ChildrenOf` | models/database.py:131-143 | the observer's children are exactly the children with a mapping to that observer |
| `Database.ChildrenOfConcat` | models/database.py:131-143 | listing two joined parts of the children table lists each part, so the observer's children keep the children table's order |
| `Database.StatusEntry` | models/database.py:524-539 | `is_due` holds exactly when a next time exists, the child was not processed today, and the next time is within 30 minutes either side of now; `can_process` is `is_due` and not processed |
| `Database.CanProcessWithinHalfHour` | Final_Obs/learning_observer_flask/models/database.py:404-427 | because a next time lies after now, `can_process` holds exactly when a next time exists no more than 30 minutes ahead and the child was not processed today |
| `Database.StatusList` | models/database.py:516-541 | one status entry per assigned child, in order |
| `Database.FindUser` | models/database.py:55-71 | the first user row with the id, and nothing exactly when none has it |
| `Database.FindChild` | routes/observer.py:104-109 | the first child row with the id, and nothing exactly when none has it |
| `Database.FindObservation` | routes/observer.py:576-585 | the first observation row with the id, and nothing exactly when none has it |
| `Database.DueOnly` | models/database.py:593-595 | the due reports are exactly the status entries with `can_process` |
| `Database.DueOnlyConcat` | models/database.py:593-595 | filtering two joined parts of the status list filters each part, so the due reports keep their order |
| `Database.SetChildOf` | routes/principal.py:329 | every user row with the id gets the new `child_id`, and every other row is unchanged |
| `Database.Db.constructor` | models/database.py:17-36 | an empty store that answers, satisfying the table invariant |
| `Database.Db.NextTimeFor` | models/database.py:416-418 | against the current tables; a store that does not answer yields None, and a result lies within the next 24 h |
| `Database.Db.SaveScheduledReport` | models/database.py:445-481 | the schedule table becomes the upsert of the old one when the store answers, and stays unchanged otherwise; success is reported exactly then |
| `Database.Db.LogReportProcessing` | models/database.py:484-507 | exactly one row is appended to the log when the store answers; nothing changes otherwise |
| `Database.Db.UpdateScheduledReportStatus` | models/database.py:602-617 | the schedule table becomes the `is_active` rewrite of the old one when the store answers, and stays unchanged otherwise |
| `Database.Db.DeleteScheduledReport` | models/database.py:572-587 | the schedule table loses exactly the pair's rows when the store answers, and stays unchanged otherwise |
| `Database.Db.ChildScheduleStatus` | models/database.py:510-545 | the loop builds the status list of the observer's children: one composed entry per child, in order |
| `Database.Db.DueReportsForObserver` | models/database.py:590-599 | the due reports are the status entries that can be processed, each with a next time and not processed today |
| `Storage.CleanFilename` | models/database.py:250-251 | every character outside `[\w\s.-]` is removed and each space becomes '_'; the result holds only safe characters, is no longer than the input, and a safe name is unchanged |
| `Storage.CleanFilenameIdempotent` | models/database.py:250-252 | cleaning a cleaned name changes nothing |
| `Storage.CleanFilenameConcat` | models/database.py:250 | cleaning works character by character, so the kept characters stay in their order |
| `Storage.UploadName` | models/database.py:252 | the object name is the uuid, '_', then the cleaned original name |
| `Storage.Bucket` | models/database.py:255-260 | 'audio-files' exactly when the lower-cased content type contains "audio", 'image-files' otherwise |
| `Storage.LegacyUploadName` | Final_Obs/learning_observer_flask/models/database.py:222 | the older copy's object name is the uuid, '_', then the original name unchanged |
| `Storage.LegacyBucket` | Final_Obs/learning_observer_flask/models/database.py:223 | the older copy picks 'audio-files' exactly when "audio" occurs case-sensitively in the content type |
| `Storage.BucketExtendsLegacy` | Final_Obs/learning_observer_flask/models/database.py:218-223 | every upload the older copy sends to the audio bucket goes there in the current copy too; "AUDIO/MPEG" shows the converse fails |
| `Helpers.ValidateFileType` | utils/helpers.py:15-20 | a name without '.' is refused; otherwise the result is whether the lower-cased text after the last '.' is an allowed type |
| `Helpers.ValidateFileTypeBySplit` | utils/helpers.py:19 | `rsplit('.', 1)[1]` is the last field of a split on '.', so both readings of the extension agree |
| `Helpers.PyPrefix` | utils/helpers.py:10 | Python's `s[:n]`: a prefix of the text, of length `n` clamped to the text, negative `n` counting from the end |
| `Helpers.TruncateText` | utils/helpers.py:47-51 | text up to the limit is returned unchanged; longer text yields the first `max_length` characters plus "...", of length `max_length + 3` |
| `Helpers.TruncateTextBound` | utils/helpers.py:48-51 | a result is never longer than the limit plus the ellipsis |
| `Helpers.SplitExt` | utils/helpers.py:9 | `os.path.splitext`: stem and extension concatenate to the path; the extension is empty or a '.' followed by no further '.' and no '/' |
| `Helpers.GenerateUniqueFilename` | utils/helpers.py:7-12 | the generated name starts with the original stem and '_' and ends with the original extension |
| `Helpers.GeneratedNameKeepsExtension` | utils/helpers.py:9-12 | splitting the generated name again gives back the original extension, when the timestamp and uuid hold no '.' or '/' |
| `Helpers.NoExtensionKept` | utils/helpers.py:12 | a name without an extension still has none after the timestamp and uuid are appended |
| `Helpers.ExtensionKept` | utils/helpers.py:12 | inserting the timestamp and uuid between stem and extension keeps the extension |
| `Helpers.FormatDatetime` | utils/helpers.py:38-44 | a string that does not parse is returned unchanged, otherwise the re-rendered form |
| `Listing.FileTypeOf` | routes/principal.py:82-89 | 'audio' exactly when the lower-cased URL contains .mp3/.wav/.m4a/.ogg, else 'image' exactly when it contains an image extension, else none; no URL gives none |
| `Listing.FileTypeLooksAnywhere` | routes/observer.py:507-518 | the extension test looks anywhere in the URL, so a directory named like an audio extension makes a picture count as audio |
| `Listing.FormattedReportOf` | routes/observer.py:520-528 | a formatted report is shown exactly when the stored JSON parses and holds a non-empty `formatted_report` |
| `Listing.ToReviewItem` | routes/observer.py:488-531 | the list entry keeps the observation's id and timestamp, flags a formatted report exactly when one is present, and carries the media kind of its URL |
| `Observer.Session.constructor` | routes/observer.py:112-113 | a fresh session holds no scheduled child and no last report |
| `Observer.ScheduleTimeOf` | routes/observer.py:68-77 | the form's time is accepted exactly when it splits on ':' into exactly two integer fields with 0 ≤ hour ≤ 23 and 0 ≤ minute ≤ 59 |
| `Observer.ScheduleTimeRejectsSeconds` | routes/observer.py:70-72 | the form refuses "HH:MM:SS", although the store reads such a time back as HH:MM |
| `Observer.ScheduleFormError` | routes/observer.py:65-77 | a missing child or time is refused as missing fields; a present but malformed time is refused as an invalid time; an accepted time reads back from the store |
| `Observer.SetSchedule` | routes/observer.py:58-86 | a refused form saves nothing; an accepted one upserts the schedule for (session user, child) |
| `Observer.ProcessScheduledReport` | routes/observer.py:92-120 | a pair processed today is refused and the session is kept; otherwise, once the child exists, the session records the scheduled child's id and name; a missing child or a silent store changes nothing |
| `Observer.NewObservation` | routes/observer.py:239-242 | a new observation starts with one required peer review, none completed, status 'pending', and is not admin-processed |
| `Observer.ReportTypeFor` | routes/observer.py:250-251 | the log entry is 'scheduled' exactly when the session's scheduled child is this child, 'manual' otherwise |
| `Observer.SaveProcessedObservation` | routes/observer.py:245-268 | when the store answers: the observation is appended, then one log row for it, the scheduled session keys are cleared and at most 1500 characters of the report are kept, and the pair counts as processed today; otherwise nothing changes |
| `Observer.AudioAcceptedIff` | routes/observer.py:297-365 | audio is accepted exactly when the name ends in an allowed extension, the size is at most 25 MiB, the upload call raised nothing, and the transcript is non-empty, free of "error" and longer than ten characters once stripped; it carries the transcript and whatever URL the upload returned |
| `Observer.FailedStorageStillAccepted` | routes/observer.py:316-327 | a storage upload that failed by returning no URL, without raising, still lets a good transcript through, with no file URL |
| `Observer.TenCharacterTranscript` | routes/observer.py:343-365 | a stripped transcript of exactly ten characters passes the length check and then yields the insufficient-content error |
| `Observer.OwnCount` | routes/observer.py:460-463 | the review quota is the number of observations the requester authored |
| `Observer.Recent` | routes/observer.py:465-474 | the candidates are exactly the other authors' observations of the last 24 hours |
| `Observer.Unreviewed` | routes/observer.py:478-484 | exactly the candidates without any review, by anyone, remain, and a newest-first list stays newest first |
| `Observer.UnreviewedConcat` | routes/observer.py:478-484 | filtering two joined candidate lists filters each, so the unreviewed candidates keep their order |
| `Observer.Take` | routes/observer.py:533 | the first `n` elements, or all when there are fewer |
| `Observer.PoolProperties` | routes/observer.py:461-533 | the pool is at most the quota long, newest first, and holds only other authors' recent unreviewed observations; every such observation is in it unless the quota cut it off |
| `Observer.ReviewItems` | routes/observer.py:487-531 | one list entry per observation, in order |
| `Observer.ReviewItemsAt` | routes/observer.py:488-529 | each entry is built from the observation at the same position |
| `Observer.ReviewItemsTake` | routes/observer.py:531-533 | cutting the entries to the quota is cutting the observations to it |
| `Observer.PeerReviewPool` | routes/observer.py:453-533 | the pending list is the entries of the first quota eligible observations, and the quota is the requester's authored count; a silent store shows nothing |
| `Observer.ReviewGate` | routes/observer.py:569-598 | a missing observation, one's own, and one the reviewer already reviewed are refused, in that order; otherwise the form is shown |
| `Observer.GateShowIff` | routes/observer.py:581-598 | the form is shown exactly for an existing observation of another author that the reviewer has not reviewed |
| `Observer.SubmitDecision` | routes/observer.py:661-708 | missing score or comments are refused, then a missing observation; a review row is inserted exactly when both are given, the store answers, the observation exists and the score is an integer, and it carries the given data and the observed author's organisation, without re-checking authorship or earlier reviews |
| `Observer.SubmitAllowsSelfReview` | routes/observer.py:672-700 | a direct request on one's own observation yields a self-review row |
| `Observer.NotReviewedCountsZero` | routes/observer.py:590-596 | a reviewer the gate lets through has no review of that observation |
| `Observer.GateThenSubmitLeavesOneReview` | routes/observer.py:581-708 | a submission through the gate leaves exactly one review by that reviewer of that observation |
| `Observer.FirstPrincipal` | routes/observer.py:735-748 | the first user with role Principal in the organisation, and nothing exactly when there is none |
| `Observer.PeerReviewNotificationMeaning` | routes/observer.py:735-781 | a notification exists exactly when the organisation has a Principal; it goes to the first one, from the reviewer, of type 'peer_review', titled 'Peer Review Received', unread, carrying the review's data |
| `Observer.SubmitPeerReview` | routes/observer.py:658-725 | the review is inserted as decided; only an insert answered 201 for an observed author with an organisation notifies; `peer_reviews_completed` is never touched |
| `Observer.NotifyPrincipal` | routes/observer.py:728-784 | one notification is appended when the Principal exists and the store answers; nothing else changes |
| `Observer.ValidateApplication` | routes/observer.py:1519-1540 | an application is valid exactly when every required field is non-empty after stripping and the years parse as an integer ≥ 0; the email is stripped and lower-cased |
| `Observer.Apply` | routes/observer.py:1514-1570 | a valid application is stored as pending; an invalid one stores nothing |
| `Principal.OrgUserIds` | routes/principal.py:509-510 | the ids of exactly the organisation's users |
| `Principal.OrgObservationIds` | routes/principal.py:516-520 | the ids of exactly the observations authored by those users |
| `Principal.NoAuthorsNoObservations` | routes/principal.py:514-516 | an organisation without users lists no observations |
| `Principal.ReviewsOn` | routes/principal.py:526-552 | exactly the reviews on the listed observations |
| `Principal.ReviewsOnConcat` | routes/principal.py:526-552 | selecting from two joined review lists selects from each, so the kept reviews keep their order |
| `Principal.ReviewsOnKeepsOrder` | routes/principal.py:505 | the created_at-descending order of the reviews is kept |
| `Principal.OrgObservers` | routes/principal.py:557 | exactly the organisation's users with role 'Observer' |
| `Principal.OrgReviewsMeaning` | routes/principal.py:505-552 | a review is listed exactly when its observation was authored by a user of the principal's organisation |
| `Principal.OrgPeerReviews` | routes/principal.py:494-582 | the listing is the organisation's reviews in created_at-descending order with its observers; a silent store gives empty lists |
| `Principal.ObserverChildDecision` | routes/principal.py:276-292 | a mapping is made exactly when both ids are given, the observer is in the organisation and the child is in the organisation |
| `Principal.AddObserverChildMapping` | routes/principal.py:272-305 | exactly one mapping row is appended when allowed, and nothing otherwise |
| `Principal.ParentChildDecision` | routes/principal.py:311-327 | a parent mapping is made exactly when both ids are given and the parent and the child are both in the organisation |
| `Principal.AddParentChildMapping` | routes/principal.py:307-333 | when allowed, the parent's `child_id` is set and no other row changes; otherwise nothing changes |
| `Principal.FindMapping` | routes/principal.py:379-380 | the first mapping with the id, and nothing exactly when none has it |
| `Principal.WithoutMapping` | routes/principal.py:385 | exactly the mappings with another id remain |
| `Principal.DeleteMappingDecision` | routes/principal.py:378-385 | a deletion goes ahead exactly when the mapping exists and its observer's organisation equals the principal's |
| `Principal.DeleteMapping` | routes/principal.py:372-391 | the mapping's rows are removed only after that check; otherwise nothing changes |
| `Principal.DeleteMappingStaysInOrg` | routes/principal.py:381 | a mapping whose observer belongs to another organisation is never deleted |
| `Principal.RemoveParentChildMapping` | routes/principal.py:396-415 | the parent's child is cleared exactly when the parent is in the organisation; otherwise nothing changes |
| `Principal.WithoutUser` | routes/principal.py:701 | exactly the users with another id remain |
| `Principal.WithoutChild` | routes/principal.py:723 | exactly the children with another id remain |
| `Principal.DeleteUser` | routes/principal.py:689-706 | a user is deleted exactly when it is in the organisation; otherwise nothing changes |
| `Principal.DeleteChild` | routes/principal.py:711-728 | a child is deleted exactly when it is in the organisation; otherwise nothing changes |
| `Principal.DeleteUserSparesOtherOrgs` | routes/principal.py:696-701 | a deletion never removes a user of another organisation |
| `Reminder.Email.Subject` | main.py:73 | the subject is "Session Reminder: Observation for " followed by the child's name |
| `Reminder.Hour12` | main.py:153 | the hour on a 12-hour face, between 1 and 12 |
| `Reminder.TwelveHour` | main.py:153 | `%I:%M %p`: eight characters with ':' and ' ' in place, ending in AM exactly for morning times |
| `Reminder.TwelveHourInjective` | main.py:150-154 | no two times of day share a 12-hour rendering |
| `Reminder.Mailer.constructor` | main.py:68-71 | a transport with the given configuration and an empty outbox |
| `Reminder.Mailer.SendReminderEmail` | main.py:66-89 | without configuration nothing is sent and the answer is False; otherwise the answer is whether the transport accepted the address, and exactly the accepted email joins the outbox |
| `Reminder.ActiveSchedules` | main.py:107 | the job iterates exactly the active schedules |
| `Reminder.ActiveSchedulesConcat` | main.py:107 | fetching from two joined parts of the table fetches from each, so the active schedules keep table order |
| `Reminder.ReminderConditions` | main.py:110-155 | a schedule reminds exactly when its time reads back, it is in the 29–31-minute window, no observation of the pair is dated today, and both rows exist; the email goes to the observer's address with the child's name and the 12-hour time |
| `Reminder.RemindersDue` | main.py:110-164 | one pass yields at most one reminder per schedule |
| `Reminder.RemindersDueConcat` | main.py:110-164 | a pass over two joined lists is the pass over each, and one schedule contributes exactly its step's reminder, so the reminders keep schedule order |
| `Reminder.RowsReachThePass` | main.py:110-155 | every schedule whose step produces a reminder gets that reminder into the pass |
| `Reminder.RemindersComeFromRows` | main.py:110-164 | every reminder of a pass comes from one of the schedules |
| `Reminder.ObservedTodaySilences` | main.py:132-143 | once the child has an observation today from that observer, no schedule of the pair reminds |
| `Reminder.Delivered` | main.py:79-89 | the transport delivers exactly the reminders to accepted addresses when configured, and nothing when unconfigured |
| `Reminder.DeliveredConcat` | main.py:79-89 | delivering two joined lists delivers each, so the delivered reminders keep their order |
| `Reminder.ReminderTick` | main.py:94-164 | without a scheduler or a store nothing is sent; otherwise the outbox grows by exactly the delivered reminders of one pass over the active schedules; a schedule that fails is skipped and the loop goes on |
| `Reminder.RemindOne` | main.py:111-162 | one schedule's step delivers its reminder, if any, at the end of the outbox |
| `Reminder.TwoTicksCanBothRemind` | main.py:125-130 | two ticks two minutes apart can both fall inside the inclusive window, so one session can be reminded twice |
| `Reminder.WindowHitsAreCloseTogether` | main.py:118-130 | two ticks more than two minutes apart, and less than a day minus two minutes apart, never both hit one schedule's window, so a schedule reminds on at most two consecutive ticks a day |
| `Reminder.StatusRowFor` | main.py:419-431 | a schedule whose time reads back gets a row with its next occurrence flagged for the 25–35-minute window; any other is skipped |
| `Reminder.StatusRows` | main.py:417-433 | at most one row per schedule |
| `Reminder.StatusRowsConcat` | main.py:417-433 | listing two joined parts lists each, and one schedule gives its entry or none, so the status page keeps schedule order |
| `Reminder.RemindedIsFlagged` | main.py:125-130 | a schedule the job reminds about is flagged on the status page |
| `Reminder.SchedulerStatus` | main.py:398-433 | the status counts the active schedules and lists their rows; a silent store counts none |
| `MonthRange.NextMonth` | models/monthly_report_generator.py:28-31 | the month after December is January of the next year; any other month is followed by the next one |
| `MonthRange.MonthEndIsNextStart` | Final_Obs/learning_observer_flask/models/monthly_report_generator.py:21-31 | the window's end is the next month's start, and the end itself is outside the window |
| `MonthRange.DateInMonth` | models/monthly_report_generator.py:26-37 | every day of a month, written YYYY-MM-DD with a four-digit year, lies in that month's half-open text window |
| `MonthRange.NextMonthIndex` | models/monthly_report_generator.py:528 | the month named in recommendations wraps 12 to 1 |
| `Monthly.MonthData` | models/monthly_report_generator.py:25-41 | the month's observations are exactly the child's rows whose date lies in [start, end); a silent store gives none |
| `Monthly.MonthDataHasEveryDay` | Final_Obs/learning_observer_flask/models/monthly_report_generator.py:19-35 | an observation dated any day of the month is among the month's observations |
| `Monthly.ReportDate` | models/monthly_report_generator.py:64-69 | the date of the first observation with the id, present exactly when one exists |
| `Monthly.GoalsOf` | models/monthly_report_generator.py:52-55 | exactly the child's goals |
| `Monthly.AlignmentsOf` | models/monthly_report_generator.py:59-62 | exactly the goal's alignments |
| `Monthly.RelevantOf` | models/monthly_report_generator.py:64-71 | the relevant alignments are no more than the alignments |
| `Monthly.RelevantOfMembers` | models/monthly_report_generator.py:64-71 | an alignment is kept exactly when its report exists and the report's date lies in [start, end) |
| `Monthly.Scores` | models/monthly_report_generator.py:75 | the progress trend is the alignment scores, in order |
| `Monthly.ProgressForMeaning` | models/monthly_report_generator.py:73-84 | a goal yields an entry exactly when it has a relevant alignment; the entry's `num_observations` is their count, its trend their scores, and its status the goal's stored status, NULL included, since the fetched row always has the key |
| `Monthly.ProgressList` | models/monthly_report_generator.py:56-82 | at most one entry per goal |
| `Monthly.ProgressListEntries` | models/monthly_report_generator.py:73-82 | every entry comes from a goal with at least one relevant alignment |
| `Monthly.ProgressListComplete` | Final_Obs/learning_observer_flask/models/monthly_report_generator.py:58-78 | every goal with a relevant alignment has its entry in the list |
| `Monthly.GetGoalProgress` | models/monthly_report_generator.py:43-89 | the loop builds the progress list of the child's goals; a silent store gives none |
| `Monthly.GoalEntry` | models/monthly_report_generator.py:59-82 | one goal's step yields that goal's entry |
| `Monthly.RelevantAlignments` | models/monthly_report_generator.py:64-71 | the inner loop keeps exactly the relevant alignments, in order |
| `Monthly.InWindow` | models/monthly_report_generator.py:65-71 | one alignment's test against the precomputed window strings is the relevance test |
| `Monthly.CountStatus` | models/monthly_report_generator.py:402-403 | a status count never exceeds the number of goals |
| `Monthly.ActiveAndCompletedAtMostAll` | models/monthly_report_generator.py:402-403 | the active and achieved counts together never exceed the number of goals |
| `Monthly.OccursIff` | models/monthly_report_generator.py:100 | a value has a positive tally exactly when it occurs |
| `Monthly.FirstSeen` | models/monthly_report_generator.py:100 | the distinct values in first-seen order, the order a dictionary keeps its keys |
| `Monthly.Keys` | models/monthly_report_generator.py:104 | the keys of the tally, in order |
| `Monthly.BumpKeys` | models/monthly_report_generator.py:100 | counting a value adds it as a new key only when it is not yet a key |
| `Monthly.BumpLookup` | models/monthly_report_generator.py:100 | counting a value adds one to its tally and leaves every other tally |
| `Monthly.EntryIsLookup` | models/monthly_report_generator.py:100-104 | each entry's count is the tally of its key |
| `Monthly.CountsOfCorrect` | models/monthly_report_generator.py:91-104 | the tally's keys are the values in first-seen order and each count is the number of occurrences |
| `Monthly.CountsOfKeys` | models/monthly_report_generator.py:97-100 | the tally's keys are the distinct values in first-seen order |
| `Monthly.CountsOfLookup` | models/monthly_report_generator.py:97-100 | the tally of each value is its number of occurrences over every parsed list |
| `Monthly.RankedCountsProperties` | Final_Obs/learning_observer_flask/models/monthly_report_generator.py:85-114 | the ranked tally is sorted by count descending, is a permutation of the tally, keeps ties in first-seen order, counts each value's occurrences, and covers exactly the values that occur |
| `Monthly.RankedEntries` | models/monthly_report_generator.py:104 | each ranked entry's count is its value's occurrences, and every occurring value has an entry |
| `Monthly.Tally` | models/monthly_report_generator.py:91-104 | the loop over the observations yields the ranked tally; unparseable fields are skipped |
| `Monthly.CountItems` | models/monthly_report_generator.py:99-100 | the inner loop adds one value's tally at a time |
| `Monthly.StrengthAreas` | models/monthly_report_generator.py:91-104 | the strengths, tallied across observations and ranked by count |
| `Monthly.DevelopmentAreas` | models/monthly_report_generator.py:106-120 | the development areas, tallied across observations and ranked by count |
| `Monthly.BestOf` | models/monthly_report_generator.py:167 | a candidate of maximal frequency |
| `Monthly.ModeSummary` | models/monthly_report_generator.py:164-169 | a value of maximal frequency, or 'no data' when there are none |
| `Monthly.CommunicationSummaryOf` | models/monthly_report_generator.py:163-171 | each communication skill is summarised by its mode |
| `Monthly.GrowthSummaryOf` | models/monthly_report_generator.py:201-208 | each of the seven growth areas is summarised by its mode, in order |
| `Monthly.WeekIndex` | models/monthly_report_generator.py:601 | day d goes to week (d−1)//7, which holds it |
| `Monthly.WeekCounts` | models/monthly_report_generator.py:595-605 | five week buckets |
| `Monthly.WeekCountsSum` | models/monthly_report_generator.py:597-605 | the buckets add up to the number of observations whose date parses |
| `Monthly.Trends` | models/monthly_report_generator.py:607 | exactly the weeks with a positive count are emitted, labelled 'Week i+1' |
| `Monthly.TrendsSum` | models/monthly_report_generator.py:607 | dropping the empty weeks keeps the total |
| `Monthly.WeeklyTrendsTotal` | Final_Obs/learning_observer_flask/models/monthly_report_generator.py:476-490 | the emitted weeks add up to the number of parseable dates |
| `Monthly.WeeklyTrends` | models/monthly_report_generator.py:593-607 | the loop yields the trends of the week buckets |
| `Monthly.ConsistencyOf` | models/monthly_report_generator.py:631 | High above 15 sessions, Medium above 8, else Low |
| `Monthly.ThemesOf` | models/monthly_report_generator.py:620-624 | exactly the non-empty themes of the day |
| `Monthly.SeedsOf` | models/monthly_report_generator.py:620-626 | exactly the non-empty curiosity seeds |
| `Monthly.DistinctAtMostLength` | models/monthly_report_generator.py:629-630 | there are never more distinct values than values |
| `Monthly.MetricsBounded` | Final_Obs/learning_observer_flask/models/monthly_report_generator.py:492-515 | empty input gives {}; otherwise the session frequency is the count, the diversities are distinct counts no larger than it, and the consistency follows the thresholds |
| `Monthly.CalculateLearningMetrics` | models/monthly_report_generator.py:609-632 | the loop yields those metrics |
| `Monthly.SummaryText` | models/monthly_report_generator.py:574-587 | the cleaned reply is returned exactly when it parses, and the fixed error text otherwise |
| `Monthly.UnfencedReply` | models/monthly_report_generator.py:574 | a reply without any fence is only stripped |
| `Monthly.FencedReply` | models/monthly_report_generator.py:575-580 | a reply wrapped in a json fence comes back as its stripped body |
| `Extractor.OcrFileTypeMeaning` | models/observation_extractor.py:32-34 | the OCR type is the lower-cased text after the last '.', with 'jpeg' mapped to 'jpg' |
| `Extractor.BasicTranscriptFormatting` | models/observation_extractor.py:277-295 | the loop yields the formatted transcript |
| `Extractor.FormattedLinesCount` | models/observation_extractor.py:278-284 | one output line per non-blank input line |
| `Extractor.FormattedLinesShape` | models/observation_extractor.py:280-284 | each output line is a speaker label followed by a stripped line: 'Observer: ' at an even original index, 'Child: ' at an odd one, blank lines still counted |
| `Extractor.BasicTranscriptLines` | models/observation_extractor.py:278-295 | with some non-blank line, splitting the output on '\n' gives back exactly the formatted lines |
| `Extractor.BasicTranscriptFallback` | models/observation_extractor.py:286-293 | with no non-blank line, the fixed four-line dialogue is returned, its second line holding the first 100 characters plus "..." or the whole text |
| `Extractor.ReplaceAll` | models/observation_extractor.py:499 | `str.replace` on every non-overlapping occurrence from the left |
| `Extractor.ReplaceAllAbsent` | models/observation_extractor.py:499 | replacing an absent pattern changes nothing |
| `Extractor.ReplaceAllRemoves` | models/observation_extractor.py:499 | after a replacement the pattern no longer occurs |
| `Extractor.ReplaceAllKeepsAbsent` | models/observation_extractor.py:498-499 | a replacement by an ASCII label does not reintroduce an emoji removed earlier |
| `Extractor.ReplaceEachRemovesKeys` | models/observation_extractor.py:471-499 | applying the map in order leaves none of its emojis |
| `Extractor.ReplaceEachIdentity` | models/observation_extractor.py:497-499 | text without any mapped emoji is unchanged |
| `Extractor.ReplaceEmojis` | models/observation_extractor.py:469-499 | the loop applies the emoji map in its order and the PDF text holds none of its emojis |
| `Extractor.SendEmail` | models/observation_extractor.py:597-643 | a missing password answers (False, "Email password not configured") before any network step; otherwise success is the transport's answer, with "Email sent to" the recipient |
| `Admin.BatchesPartition` | routes/admin.py:123-126 | the slices concatenate to the list in order, each is non-empty and at most 50 long, and all but the last are full |
| `Admin.SliceBatches` | routes/admin.py:123-126 | the slice loop yields those slices |
| `Admin.ChildRecord` | routes/admin.py:113-121 | the child row carries the new id and the CSV name; a birth date is present exactly when the CSV has that column |
| `Admin.UserRecordNormalised` | routes/admin.py:137-146 | a parent or observer row has the fixed role and the email stripped and lower-cased |
| `Admin.NormalisedEmail` | routes/admin.py:141 | a normalised email has no upper-case letter and no surrounding whitespace |
| `Admin.ChildRows` | routes/admin.py:112-121 | one child row per CSV row |
| `Admin.UserRows` | routes/admin.py:136-146 | one user row per CSV row |
| `Admin.BuildChildRows` | routes/admin.py:112-121 | the loop builds the child rows of every CSV row |
| `Admin.BuildUserRows` | routes/admin.py:161-171 | the loop builds the user rows of every CSV row |
| `Admin.UploadDecision` | routes/admin.py:91-178 | a named file of a known type with the columns that type needs (name for children; name, email and password for parents and observers) is reported added, with every CSV row counted, exactly when the store takes every slice, and as an error exactly when it refuses one |
| `Admin.BulkUploadUsers` | routes/admin.py:89-183 | after the checks, the one table of the upload type gains the built rows of the slices stored before the first refused insert, in order, and nothing otherwise |
| `Admin.SlicesStored` | routes/admin.py:123-126 | the store takes the slices before its first refusal, and none when it does not answer |
| `Admin.BatchesCount` | routes/admin.py:123-126 | there is one slice per started group of fifty rows |
| `Admin.BatchesPrefix` | routes/admin.py:123-126 | the first k slices hold exactly the first 50·k rows |
| `Admin.AllSlicesAllRows` | routes/admin.py:123-128 | when every slice is stored, every built row is stored |
| `Admin.SecondSliceRefusedKeepsFirst` | routes/admin.py:148-179 | when the second insert of a 51- to 100-row file is refused, the upload reports an error and the first fifty rows stay stored |
| `Admin.InsertChildren` | routes/admin.py:124-126 | slices are inserted in order until the store refuses one, and the stored slices' concatenation is appended to the children |
| `Admin.InsertUsers` | routes/admin.py:149-151 | slices are inserted in order until the store refuses one, and the stored slices' concatenation is appended to the users |
| `Admin.Lookup` | routes/admin.py:283-284 | the lookup has exactly the listed keys |
| `Admin.LookupLastWins` | routes/admin.py:283-284 | with duplicate keys, the later entry wins |
| `Admin.ParentsOf` | routes/admin.py:281 | exactly the users with role 'Parent' |
| `Admin.RowKeys` | routes/admin.py:288-289 | one stripped, lower-cased key pair per CSV row |
| `Admin.Matches` | routes/admin.py:286-296 | at most one match per row |
| `Admin.MatchesMeaning` | routes/admin.py:287-296 | a pair is matched exactly when some row's parent email and child name are both found, after strip and lower-case, with non-empty ids |
| `Admin.MatchRowMeaning` | routes/admin.py:291-294 | one row matches exactly when both lookups find a non-empty id |
| `Admin.ApplyMatches` | routes/admin.py:295 | applying the matches keeps the user table's size |
| `Admin.UnmatchedParentUnchanged` | routes/admin.py:294-295 | a user no match names is unchanged |
| `Admin.MappingRows` | routes/admin.py:261-269 | one observer-child mapping per CSV row |
| `Admin.BulkUploadMappings` | routes/admin.py:245-298 | missing columns insert nothing; observer-child rows are appended as built; parent-child matches set the parents' child and are counted |
| `Admin.MapParents` | routes/admin.py:286-296 | `success_count` is the number of matching rows and the users become the old users with each match applied in order |
| `Admin.AdminObservation` | routes/admin.py:339-468 | an admin-processed observation has `processed_by_admin` set, no peer-review fields, and the names, date and themes its processing mode gives |
| `Admin.SaveAdminObservation` | routes/admin.py:418-419 | the observation is appended when the store answers, and no processing-log row is ever written |

## Left out

- Floating point. `avg_score`, the goal completion rate and the float minutes
  to a session are not modelled. Windows are compared in integer seconds
  (29 minutes = 1740 s), and the status page shows seconds instead of
  minutes rounded to one decimal.
- Time zones and the system clock. `now` is a parameter counted in seconds
  on the local wall clock, and the day starts at multiples of 86400.
  `today` is given as the `YYYY-MM-DD` text the job compares with. Stored
  timestamps are integers, not ISO text.
- Calls into code that cannot be seen here. Each one is a parameter or an
  oracle: uuid (`newId`), `strptime` (`parse`), JSON validity (`parses`),
  `fromisoformat` (`rendered`), the transcription and OCR results, the 201
  status of an insert (`stored`), the first slice insert the store refuses
  (`refusedAt`), and the SMTP outcome. The AI, OCR, SMTP
  and Supabase services and templates are not modelled.
- Flask session. The session is modelled only by the keys the routes
  read back: the user id and name, `scheduled_child_id`,
  `scheduled_child_name`, `last_custom_report`, `last_report` and
  `last_report_id`. The `last_student_name` and `last_date` keys written
  after a save (routes/observer.py:270-271) and `session.permanent` are
  not modelled.
- Store filters with no organisation. The organisation filters match a row
  only when the principal's session has an organisation and the row's
  organisation equals it, as an `eq` on a missing value matches nothing.
  `delete_mapping` compares the two optional values directly, as the source
  does.
- Case folding. Lower-casing is ASCII only, and `\w`/`\s` are their ASCII
  and Python whitespace sets.
- `int()` details. Underscores and non-ASCII digits are not modelled.
- Python set order. `Monthly.ModeSummary` picks the first value of maximal
  count in list order. The source takes `max(set(values), key=values.count)`,
  whose choice among tied values depends on set iteration order. The
  contract states only "a value of maximal frequency".
- Regex extraction. The communication-skill and growth-area ratings arrive
  as extracted lists, and only the mode step is modelled.
- AI reply in the older copy. The older monthly generator returns the AI
  reply unchanged, which is the identity; no member models it.
- The `processed_observations` insert of admin processing. It is not
  modelled, and neither is the signed-URL lookup for audio entries.
- pandas details. NaN cells, a CSV that fails to parse, and the
  `birth_date`/`grade` values beyond presence are not modelled.
- `Admin.MapParents`: every matching row's update is assumed to succeed.
  The source also counts a row whose update raised nothing, so the two agree
  except when the store fails partway through the loop.
- Text formatting details. The `urllib` quoting of file URLs and the `[:8]`
  id prefix in the status page are not modelled.
- `Reminder.ReminderTick`: a failing schedule is modelled as one whose time
  does not read back or whose rows are missing. Other exceptions inside the
  loop (a store failure on one schedule) are not distinguished, because the
  store is modelled as answering for the whole tick.
- Concurrency. APScheduler threading and its `max_instances`, `coalesce`
  and `misfire_grace_time` settings are not modelled. Check-then-act races
  in the processed-today guard and the review duplicate check are not
  modelled either: one tick and one request at a time.
- Listings on the peer-review page. The `principal_feedback` listing and
  the observer's `completed_reviews` listing (routes/observer.py:536-544)
  are display queries and are not modelled.
