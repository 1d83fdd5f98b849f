# In-session service core, modelled in Dafny

This project models the scheduling core of the in-session service, a Kotlin backend for clinicians and their clients. It covers:

- **The session scheduler (`SessionBo`).**
  - It books a session for a clinician and their clients. A booking that overlaps one of the clinician's sessions on the same date is refused.
  - It stores a session row plus one association row per attendee, and notifies every other attendee's devices.
  - It lists and shows sessions to the users who have association rows for them.
  - It records an attendee's response and notifies the other side (everyone else when the requester acts, the requester otherwise).
  - It cancels the session, deleting both kinds of rows, exactly when the requester declines.
- **The mappers and text builders it relies on.** These are `Session`, `SessionAttendee` and the notification texts.
- **The identifier and query helpers of `Utils`.** Secure ids are URL-safe Base64 with the padding replaced. DynamoDB "contains" filter expressions are built from clauses joined by an operator.
- **The clinician's weekly availability.** This covers the day names, the defaults and the round trips between the model and its stored documents.
- **The `@ListPattern` list validator.**
- **Registration and profile maintenance (`UserBo`).**
- **Journals (`JournalBo`).**

**How the pieces are modelled.**
- The stores are maps.
  - A `SessionBo` holds its session table and association table as fields that its methods update.
  - It holds the user table and the behaviour of the push gateway as constants.
  - The gateway is described by a set of disabled endpoints, which are skipped, and a set of failing endpoints, which abort the send.
  - Every delivered message is appended to a log of sent notifications.
- `UserBo` keeps its user table, the common user table and the log of calls to the identity provider.
- `JournalBo` keeps the journal table keyed by (user id, entry id).
- Randomness, the readable date and the push gateway's answer to a token registration are parameters.
  - The bytes drawn for a secure id are passed in.
  - The text the date formatter produced is passed in.
  - The gateway's answer is passed in as an optional endpoint.
- The regular-expression engine is two function parameters: whether a pattern compiles, and whether a text matches.
- A `ZonedDateTime` is an epoch second with a fixed UTC offset. Its local date is the floor of (seconds + offset) / 86400.
- The store hands every date back in UTC (`Time.InUtc`). The session views and the journal entries the service returns therefore carry offset 0 and the instant that was written.

**Files.** Each file is one module.

| file | contents |
|---|---|
| `wrappers.dfy` | `Option` |
| `time.dfy` | instants, local dates, one-week shift |
| `session_attendee.dfy` | attendee statuses and documents |
| `entities.dfy` | stored rows |
| `session.dfy` | session rows and association rows |
| `session_rules.dfy` | overlap, conflict, booking, cancellation and the invariants they keep, on table values |
| `session_bo.dfy` | the scheduler object |
| `push_notification_utils.dfy` | notification texts |
| `base64.dfy` | URL-safe Base64 |
| `utils.dfy` | secure ids and filter expressions |
| `clinician_availability.dfy` | availability |
| `list_pattern_validator.dfy` | the list validator |
| `user_bo.dfy` | `UserBo` |
| `journal_bo.dfy` | `JournalBo` |

**Observations the model makes explicit.**
- **Conflicts across midnight.** The conflict query only looks at sessions stored under the local date on which the new session starts. A session from 23:30 to 00:30 therefore does not block one from 00:00 to 00:15 on the next day (`SessionRules.MidnightOverlapNotDetected`). The invariant the scheduler keeps is accordingly "no overlapping sessions of one clinician under the same date", `SessionRules.NoSameDayDoubleBooking`.
- **Inverted windows.** A window whose start is not before its end can still "overlap" another under the source's test. The equivalence with sharing an instant (`SessionRules.OverlapsIffSharedInstant`) is stated for non-empty windows only.
- **Unique emails, not unique phone numbers.** Registration checks the email only. `UserBo.Register` and `UserBo.UpdateProfile` keep emails unique (`UserBusiness.UniqueEmails`), but nothing keeps phone numbers unique.
- **Journal dates.** Revising a journal entry keeps its stored instant (`JournalBusiness.RevisedReadsBack`).

## Model

Source paths are relative to the root of the Kotlin repository.

| member | source | states |
|---|---|---|
| Time.LocalDate | src/main/kotlin/ca/aversa/insessionservice/model/Session.kt:28 | the session date is the day whose 86400 seconds contain the start's local wall-clock second (floor division, also before 1970) |
| Time.InUtc | src/main/kotlin/ca/aversa/insessionservice/util/ZonedDateTimeTypeConverter.kt:14-16 | a date read back from the store is the same instant with offset 0; a date already in UTC is unchanged |
| Time.InUtcKeepsOrder | src/main/kotlin/ca/aversa/insessionservice/util/ZonedDateTimeTypeConverter.kt:14-16 | reading dates back in UTC keeps `isBefore` and `isAfter` between them, and converting twice is converting once |
| Time.PlusOneWeekEpochSecond | src/main/kotlin/ca/aversa/insessionservice/model/Session.kt:39 | one week later is the same wall-clock time of day seven local dates later, and so an instant after the end |
| SessionAttendees.StatusValueOf | src/main/kotlin/ca/aversa/insessionservice/model/SessionAttendee.kt:30-35 | a status read back from a name is the status with that name; unknown names give none |
| SessionAttendees.StatusDomain | src/main/kotlin/ca/aversa/insessionservice/model/SessionAttendee.kt:30-35 | there are exactly four statuses, TENTATIVE, ACCEPTED, DECLINED and CANCELLED, with four distinct names |
| SessionAttendees.StatusNameRoundTrip | src/main/kotlin/ca/aversa/insessionservice/model/SessionAttendee.kt:30-35 | every status's name reads back as that status |
| SessionAttendees.ToEntity | src/main/kotlin/ca/aversa/insessionservice/model/SessionAttendee.kt:11-13 | the stored document carries the attendee's user id |
| SessionAttendees.FromDocument | src/main/kotlin/ca/aversa/insessionservice/model/SessionAttendee.kt:24-26 | the attendee read from a document carries the document's user id |
| SessionAttendees.DocumentRoundTrip | src/main/kotlin/ca/aversa/insessionservice/model/SessionAttendee.kt:11-26 | storing an attendee and reading it back gives the same user id, status and note |
| SessionAttendees.AttendeeRoundTrip | src/main/kotlin/ca/aversa/insessionservice/model/SessionAttendee.kt:11-26 | reading a document and storing it again gives the same document |
| SessionAttendees.FromUserIdDefaults | src/main/kotlin/ca/aversa/insessionservice/model/SessionAttendee.kt:16-22 | an attendee made from a user id alone is TENTATIVE with no note |
| SessionAttendees.FromPreservesArguments | src/main/kotlin/ca/aversa/insessionservice/model/SessionAttendee.kt:16-22 | the three-argument mapper keeps user id, status and note, and is the only attendee with them |
| Sessions.AttendeeDocumentsKeyed | src/main/kotlin/ca/aversa/insessionservice/model/Session.kt:19-23 | the attendee map has one key per distinct user id and each document carries its own key |
| Sessions.AttendeeDocumentsLastWins | src/main/kotlin/ca/aversa/insessionservice/model/Session.kt:19-23 | under a repeated user id the map holds the last attendee with that id (the behaviour of `toMap`) |
| Sessions.ToSessionEntityShape | src/main/kotlin/ca/aversa/insessionservice/model/Session.kt:18-36 | the row has the given session id and requester, the clinician, the local date of the start, attendees keyed by their ids, and with distinct ids every attendee as it came in |
| Sessions.AssociationTtl | src/main/kotlin/ca/aversa/insessionservice/model/Session.kt:39 | the time to live is later than the session's end |
| Sessions.AssociationRowsShape | src/main/kotlin/ca/aversa/insessionservice/model/Session.kt:38-50 | one association row per attendee in attendee order, keyed (attendee, session), each with the session's start and end, all with ttl = end + one week > end |
| Sessions.AssociationsMatchSessionRow | src/main/kotlin/ca/aversa/insessionservice/model/Session.kt:18-50 | the association keys are exactly the session row's attendee keys paired with the session id |
| Sessions.FromRequestAttendees | src/main/kotlin/ca/aversa/insessionservice/model/Session.kt:54-67 | the attendees are the clients in order followed by the clinician (so clients + 1 of them, the clinician always included), all TENTATIVE without a note |
| SessionRules.OverlapsSymmetric | src/main/kotlin/ca/aversa/insessionservice/bo/SessionBo.kt:212-214 | the overlap test gives the same answer with the two windows swapped |
| SessionRules.OverlapsIffSharedInstant | src/main/kotlin/ca/aversa/insessionservice/bo/SessionBo.kt:212-214 | two non-empty windows overlap iff some second lies in both, so windows that only touch do not conflict |
| SessionRules.ConflictMeansSharedInstant | src/main/kotlin/ca/aversa/insessionservice/bo/SessionBo.kt:203-215 | a conflict exists iff a stored session of the same clinician under the new start's date shares a second with the new session |
| SessionRules.ConflictScenarios | src/main/kotlin/ca/aversa/insessionservice/bo/SessionBo.kt:203-215 | against 05:00-05:30, the windows 05:15-05:25, 04:30-05:30, 04:30-05:15 and 05:00-05:30 conflict, while 05:30-06:00 and 04:30-05:00 do not |
| SessionRules.MidnightOverlapNotDetected | src/main/kotlin/ca/aversa/insessionservice/bo/SessionBo.kt:204-210 | an overlapping session stored under the previous date is not reported as a conflict |
| SessionRules.StoringUnconflictedKeepsNoDoubleBooking | src/main/kotlin/ca/aversa/insessionservice/bo/SessionBo.kt:32-45 | storing a session that passed the conflict check keeps every clinician free of overlapping sessions under one date |
| SessionRules.CreatedRowShape | src/main/kotlin/ca/aversa/insessionservice/bo/SessionBo.kt:37-39 | the stored booking lists each attendee once under their id, has the requester ACCEPTED with their note kept, and leaves every other entry as requested |
| SessionRules.RequestedBookingStatuses | src/main/kotlin/ca/aversa/insessionservice/bo/SessionBo.kt:38-39 | for a requested session the booking holds the clinician and every client; the requester is ACCEPTED, everyone else TENTATIVE without a note |
| SessionRules.SaveAllEffect | src/main/kotlin/ca/aversa/insessionservice/bo/SessionBo.kt:46 | a batch save adds exactly the saved rows' keys, stores each row under its key and leaves all other rows alone |
| SessionRules.BookingAssociationKeys | src/main/kotlin/ca/aversa/insessionservice/bo/SessionBo.kt:221-228 | the association keys a booking writes are exactly the keys a cancellation of it deletes |
| SessionRules.BookingKeepsConsistency | src/main/kotlin/ca/aversa/insessionservice/bo/SessionBo.kt:36-46 | after a booking under a fresh id, every attendee of every session has an association row and every association row names a stored session listing its user |
| SessionRules.RowUpdateKeepsConsistency | src/main/kotlin/ca/aversa/insessionservice/bo/SessionBo.kt:105-107 | rewriting a session row with the same attendee keys keeps the two tables in agreement |
| SessionRules.CancellationKeepsConsistency | src/main/kotlin/ca/aversa/insessionservice/bo/SessionBo.kt:217-229 | deleting a session and its attendees' association rows keeps the tables in agreement and leaves no association row for that session |
| SessionRules.RowUpdateKeepsNoDoubleBooking | src/main/kotlin/ca/aversa/insessionservice/bo/SessionBo.kt:105-107 | rewriting a session row with the same clinician, date and window keeps the no-double-booking invariant |
| SessionRules.AttendeeUpdateNotifiesOthers | src/main/kotlin/ca/aversa/insessionservice/bo/SessionBo.kt:113-121 | the actor is never notified; the requester is notified iff someone else acts; when the requester acts every other attendee is notified; nobody outside the session is |
| SessionRules.UpdatedRowShape | src/main/kotlin/ca/aversa/insessionservice/bo/SessionBo.kt:105 | an attendee update changes only that attendee's entry, which reads back as given; keys, clinician, date and window stay |
| SessionBusiness.ToUserSession | src/main/kotlin/ca/aversa/insessionservice/bo/SessionBo.kt:164-176 | the user's view copies every field of the row, with start and end read back in UTC, and lists each stored attendee exactly once, as stored |
| SessionBusiness.LoadSessions | src/main/kotlin/ca/aversa/insessionservice/bo/SessionBo.kt:77 | loading ids yields, once each and in no fixed order, the view of every stored session among them and of nothing else |
| SessionBusiness.LoadDetails | src/main/kotlin/ca/aversa/insessionservice/bo/SessionBo.kt:149-153 | one (id, display name) per requested user that has a user row, once each, and nobody else |
| SessionBusiness.SessionBo.SendPushNotificationToUsers | src/main/kotlin/ca/aversa/insessionservice/bo/SessionBo.kt:178-188 | only the given message goes out, only to non-disabled, non-failing endpoints of the users; it succeeds iff no endpoint of theirs fails, and then every non-disabled endpoint got it |
| SessionBusiness.SessionBo.CreateSessions | src/main/kotlin/ca/aversa/insessionservice/bo/SessionBo.kt:30-67 | a conflict or a requester who is not an attendee fails with nothing written; otherwise the booking and its association rows are written and the other attendees notified, a failed push being a scheduler error; preserves no-double-booking, and the agreement of the tables for a fresh room id |
| SessionBusiness.SessionBo.StoreBooking | src/main/kotlin/ca/aversa/insessionservice/bo/SessionBo.kt:36-46 | writes the booking row and the batch of association rows, keeping both invariants |
| SessionBusiness.SessionBo.GetSessions | src/main/kotlin/ca/aversa/insessionservice/bo/SessionBo.kt:72-82 | every stored session the user has an association row for, once each, as the user sees it, and no other |
| SessionBusiness.SessionBo.GetSession | src/main/kotlin/ca/aversa/insessionservice/bo/SessionBo.kt:84-96 | not found iff the user has no association row for the session or its row is gone; otherwise the user's view of that row |
| SessionBusiness.SessionBo.GetAttendeeDetails | src/main/kotlin/ca/aversa/insessionservice/bo/SessionBo.kt:145-154 | not found iff the session is missing; otherwise the id and display name of each attendee that has a user row, once each |
| SessionBusiness.SessionBo.CancelSession | src/main/kotlin/ca/aversa/insessionservice/bo/SessionBo.kt:217-229 | deletes the session row and the association rows of all its attendees, not found when it is missing; keeps the tables in agreement |
| SessionBusiness.SessionBo.RecordAttendee | src/main/kotlin/ca/aversa/insessionservice/bo/SessionBo.kt:98-107 | rewrites the session row with the attendee's new entry, keeping both invariants |
| SessionBusiness.SessionBo.UpdateAttendee | src/main/kotlin/ca/aversa/insessionservice/bo/SessionBo.kt:98-143 | not found unless the user has an association row and is listed in the session; the new entry is written even if a later step fails; the other side gets the attendee's title and the note or "No reason given."; the session is deleted iff the requester declined and every push succeeded |
| PushNotificationUtils.VerbSpelling | src/main/kotlin/ca/aversa/insessionservice/util/PushNotificationUtils.kt:14-19 | the title verbs are the lower-case status names "tentative", "accepted", "declined", "cancelled" |
| PushNotificationUtils.NewSessionCreationBodyRoundTrip | src/main/kotlin/ca/aversa/insessionservice/util/PushNotificationUtils.kt:7-12 | the body is "A new session has been scheduled at " followed by the date, which reads back unchanged |
| PushNotificationUtils.UpdatedAttendeeTitleRoundTrip | src/main/kotlin/ca/aversa/insessionservice/util/PushNotificationUtils.kt:8-19 | the title starts with the user identifier unchanged and has the shape "<user> has <verb> a session", from which the status reads back |
| PushNotificationUtils.UpdatedAttendeeTitleInjective | src/main/kotlin/ca/aversa/insessionservice/util/PushNotificationUtils.kt:14-19 | for one user, different statuses give different titles |
| Base64Url.Encode | src/main/kotlin/ca/aversa/insessionservice/util/Utils.kt:20 | four characters per started group of three bytes, never '+' or '/', and '=' exactly in the trailing padding |
| Utils.ReplaceChar | src/main/kotlin/ca/aversa/insessionservice/util/Utils.kt:21-23 | same length and every other character kept; no `from` is left when it is replaced by a different character; a text without `from` comes back unchanged |
| Utils.ReplaceCharIdempotent | src/main/kotlin/ca/aversa/insessionservice/util/Utils.kt:21-23 | replacing a second time changes nothing more |
| Utils.SecureIdShape | src/main/kotlin/ca/aversa/insessionservice/util/Utils.kt:15-23 | the id has no '+', '/' or '=', is as long as the Base64 text of the bytes, keeps its other characters and turns each pad into '_' |
| Utils.OnlyPaddingIsReplaced | src/main/kotlin/ca/aversa/insessionservice/util/Utils.kt:20-23 | the first two replacements change nothing, so the id is the Base64 text with '=' replaced |
| Utils.DefaultSecureIdLengthIs28 | src/main/kotlin/ca/aversa/insessionservice/util/Utils.kt:15-23 | with the default 20 bytes the id is 28 characters long and ends in a replaced pad |
| Utils.NatToString | src/main/kotlin/ca/aversa/insessionservice/util/Utils.kt:34 | the index is written as one or more decimal digits, two or more from 10 on |
| Utils.NatToStringInjective | src/main/kotlin/ca/aversa/insessionservice/util/Utils.kt:38 | distinct indices have distinct decimal texts |
| Utils.PlaceholdersDistinct | src/main/kotlin/ca/aversa/insessionservice/util/Utils.kt:38 | distinct indices give distinct placeholders |
| Utils.JoinToStringLength | src/main/kotlin/ca/aversa/insessionservice/util/Utils.kt:35 | n joined parts take their own lengths plus n - 1 separators |
| Utils.JoinToStringContainsParts | src/main/kotlin/ca/aversa/insessionservice/util/Utils.kt:35 | every part occurs in the joined string |
| Utils.PlaceholderValuesKeys | src/main/kotlin/ca/aversa/insessionservice/util/Utils.kt:37-39 | the value map's keys are exactly placeholder + i for the indices i |
| Utils.PlaceholderValuesAt | src/main/kotlin/ca/aversa/insessionservice/util/Utils.kt:37-39 | placeholder + i is bound to the i-th value |
| Utils.PlaceholderValuesSize | src/main/kotlin/ca/aversa/insessionservice/util/Utils.kt:37-39 | the value map has as many entries as there are values |
| Utils.EmptyFilterExpression | src/main/kotlin/ca/aversa/insessionservice/util/Utils.kt:29-42 | for no values the expression is "" and the value map is empty |
| Utils.FilterExpressionText | src/main/kotlin/ca/aversa/insessionservice/util/Utils.kt:33-35 | n clauses and n - 1 separators make up the expression, and every clause and every placeholder occurs in it |
| Utils.FilterExpressionValues | src/main/kotlin/ca/aversa/insessionservice/util/Utils.kt:37-41 | the value map binds exactly placeholders 0..n-1, the i-th to values[i], and each key occurs in the expression |
| ClinicianAvailabilities.DayNameRoundTrip | src/main/kotlin/ca/aversa/insessionservice/model/ClinicianAvailability.kt:22-33 | day names and days correspond one to one, in both directions |
| ClinicianAvailabilities.DayNameInjective | src/main/kotlin/ca/aversa/insessionservice/model/ClinicianAvailability.kt:22 | distinct days have distinct names |
| ClinicianAvailabilities.AvailabilityRoundTrip | src/main/kotlin/ca/aversa/insessionservice/model/ClinicianAvailability.kt:47-67 | an availability and its document convert into each other keeping start and end |
| ClinicianAvailabilities.DefaultCoversWeek | src/main/kotlin/ca/aversa/insessionservice/model/ClinicianAvailability.kt:9-17 | the default holds all seven days: Monday-Friday 09:00-17:00, Saturday and Sunday with no times |
| ClinicianAvailabilities.ToEntityAvailabilitiesKeys | src/main/kotlin/ca/aversa/insessionservice/model/ClinicianAvailability.kt:20-24 | one stored entry per day, under the day's name, holding that day's times |
| ClinicianAvailabilities.DaySetSize | src/main/kotlin/ca/aversa/insessionservice/model/ClinicianAvailability.kt:20-24 | a set of days and the set of their names have the same size |
| ClinicianAvailabilities.ToEntityAvailabilitiesAt | src/main/kotlin/ca/aversa/insessionservice/model/ClinicianAvailability.kt:20-24 | a day's name is stored iff the day is present, with its document |
| ClinicianAvailabilities.FromRequestUnchanged | src/main/kotlin/ca/aversa/insessionservice/model/ClinicianAvailability.kt:27-29 | the request's availabilities are used unchanged |
| ClinicianAvailabilities.EntityRoundTrip | src/main/kotlin/ca/aversa/insessionservice/model/ClinicianAvailability.kt:20-37 | reading back the stored map restores the same days with the same times |
| ClinicianAvailabilities.DocumentRoundTrip | src/main/kotlin/ca/aversa/insessionservice/model/ClinicianAvailability.kt:20-37 | a stored map whose keys are all day names reads and stores back to itself |
| ListPatternValidators.ListPatternValidator.Initialize | src/main/kotlin/ca/aversa/insessionservice/util/ListPatternValidator.kt:24-28 | an annotation whose pattern compiles sets the regex to it; a pattern that does not compile ends in `PatternSyntaxException` with the regex left as it was; without an annotation nothing changes; the annotation field is never set |
| ListPatternValidators.ListPatternValidator.IsValid | src/main/kotlin/ca/aversa/insessionservice/util/ListPatternValidator.kt:30-42 | valid iff the list is present, a regex is set and every element matches it |
| ListPatternValidators.UninitializedRejectsAll | src/main/kotlin/ca/aversa/insessionservice/util/ListPatternValidator.kt:21-33 | a validator never initialized rejects every input, even the empty list |
| ListPatternValidators.InitializedAcceptsEmpty | src/main/kotlin/ca/aversa/insessionservice/util/ListPatternValidator.kt:24-41 | after initialization with an annotation, the empty list is valid exactly when the pattern compiles |
| UserBusiness.FriendlyName | src/main/kotlin/ca/aversa/insessionservice/bo/UserBo.kt:42 | the display name is the first name, one space, then the last name |
| UserBusiness.EmailTakenSplits | src/main/kotlin/ca/aversa/insessionservice/bo/UserBo.kt:127-131 | an email is taken iff another user has it or it is the user's own |
| UserBusiness.UpdatedUserRowKeepsClients | src/main/kotlin/ca/aversa/insessionservice/bo/UserBo.kt:74-78 | the rewritten row has the new name, email and phone under the same id, and a clinician keeps their client list |
| UserBusiness.WriteKeepsUniqueEmails | src/main/kotlin/ca/aversa/insessionservice/bo/UserBo.kt:127-131 | writing a row whose email is its own or no other user's keeps emails unique |
| UserBusiness.UserBo.Register | src/main/kotlin/ca/aversa/insessionservice/bo/UserBo.kt:35-48 | a taken email fails with nothing written and no unblock; otherwise the user row and a common row named after the user with no devices are written and the account unblocked; emails stay unique |
| UserBusiness.UserBo.UpdateProfile | src/main/kotlin/ca/aversa/insessionservice/bo/UserBo.kt:51-85 | not found without both rows; an email or phone error iff that field changed and another user has it, all errors reported together with nothing written; otherwise the row (clients kept), the display name and the phone at the identity provider are updated; emails stay unique |
| UserBusiness.UserBo.UpdateFcmToken | src/main/kotlin/ca/aversa/insessionservice/bo/UserBo.kt:87-97 | not found without a common row; otherwise exactly one endpoint is appended after the existing ones and nothing else changes |
| JournalBusiness.ToEntity | src/main/kotlin/ca/aversa/insessionservice/model/Journal.kt:16-25 | the row is stored under the given owner and id with the entry's title, text and keywords |
| JournalBusiness.FromRow | src/main/kotlin/ca/aversa/insessionservice/model/Journal.kt:46-55 | the entry read from a row carries the row's owner and id |
| JournalBusiness.RowRoundTrip | src/main/kotlin/ca/aversa/insessionservice/model/Journal.kt:16-55 | row to entry to row gives the row with its date in UTC (the row itself when already in UTC); entry to row to entry gives the entry with owner and id filled in and its date in UTC |
| JournalBusiness.RevisedReadsBack | src/main/kotlin/ca/aversa/insessionservice/bo/JournalBo.kt:18-24 | a revised entry reads back with the new title, text and keywords and the old owner, id and instant, read back in UTC; revising twice equals revising once with the later entry |
| JournalBusiness.IdPlaceholderIsNotAKeywordPlaceholder | src/main/kotlin/ca/aversa/insessionservice/bo/JournalBo.kt:79-89 | the keyword placeholders never replace the user id's binding |
| JournalBusiness.MergedValues | src/main/kotlin/ca/aversa/insessionservice/bo/JournalBo.kt:79-89 | the merged value map binds ":id" to the user and ":keyword<i>" to keyword i, has n + 1 entries, and every keyword placeholder occurs in the filter |
| JournalBusiness.QueryFromDynamo | src/main/kotlin/ca/aversa/insessionservice/bo/JournalBo.kt:75-97 | always "id = :id" with the user id; without keywords no filter and only ":id"; with keywords the OR filter and all its placeholders bound |
| JournalBusiness.QueryJournals | src/main/kotlin/ca/aversa/insessionservice/bo/JournalBo.kt:44 | the entries of exactly the matching rows, once each, in no fixed order |
| JournalBusiness.JournalBo.Update | src/main/kotlin/ca/aversa/insessionservice/bo/JournalBo.kt:15-35 | without an id a new row under a fresh secure id; with one, not found when missing, else only title, text and keywords replaced |
| JournalBusiness.JournalBo.Get | src/main/kotlin/ca/aversa/insessionservice/bo/JournalBo.kt:37-41 | found iff stored; the entry carries the requested id, its date is the stored instant in UTC, and with that date it stores back to the stored row |
| JournalBusiness.JournalBo.GetAll | src/main/kotlin/ca/aversa/insessionservice/bo/JournalBo.kt:43-45 | every entry of the user (sharing a keyword when keywords are given), once each, and only the user's |
| JournalBusiness.JournalBo.UpdateKeywords | src/main/kotlin/ca/aversa/insessionservice/bo/JournalBo.kt:47-60 | not found when missing; otherwise only the keywords of that entry change |
| JournalBusiness.RetaggedEntryIsFound | src/main/kotlin/ca/aversa/insessionservice/bo/JournalBo.kt:83-90 | an entry retagged with a keyword is found by a filter containing it, and without keywords every entry of the user is found |

## Left out

- **Storage failures.** The tables are maps that always answer. DynamoDB exceptions, and their wrapping into `SessionBoException` or `JournalBoException`, are not modelled. Only failures with a cause inside the model are: a requester who is not an attendee, a missing user row, and a failing push endpoint.
- **Evaluation of queries.**
  - The query strings the service builds are modelled as text.
  - Their evaluation by DynamoDB is modelled by predicates:
    - `ConflictsWith` for the date/clinician index;
    - `SessionIdsOf` for the association query;
    - `EmailTaken`, `DuplicateEmailExists` and `DuplicatePhoneExists` for the user indexes (`UserBo.DoesUserExist`, UserBo.kt:30-32, is `EmailTaken` on the user table);
    - `Matches` for the journal query.
  - `getUserSessionAssociationRows`, `getSessionTableRowForUser`, `getUserCommonConfig` and `fetchFromDynamo` are folded into these lookups.
- **Result order.** The order of `batchLoad`, query results and hash-set iteration is unspecified. The model visits rows in an arbitrary order.
- **Concurrency.** The race between the conflict check and the write is not modelled; every call runs alone.
- **The readable date.** The text produced by the date formatter is a parameter of `SessionBo.CreateSessions`.
- **Randomness.** The secure random bytes are a parameter.
- **External services.** The push gateway, the identity provider and the token registration are modelled by their observable effect only, as described above. Logging and console output are omitted.
- **Time.** `ZonedDateTime` has a fixed offset: daylight-saving changes inside the week added to the ttl are not modelled.
- **Sub-second precision.** Dates are whole epoch seconds. The stored ISO text keeps nanoseconds, and `isBefore`/`isAfter` compare them. So two windows that differ by less than a second can conflict in the service but not in the model: a stored end of 11:00:00.5 and a new start of 11:00:00.2 is one such case.
- **Offsets of rewritten rows.** `updateAttendee`, `JournalBo.update` and `updateKeywords` write back a row they read, whose dates the store converted to UTC. The model rewrites the row with the offset it was first written with. Only the offset differs, and every read converts to UTC, so what the service returns is the same.
- **Integer widths.** Integers are unbounded; no value in the core comes near the limits of `Int` or `Long`.
- **The Day enum.** `model/Day.kt` is not part of this model; its constants are taken to be MONDAY to SUNDAY.
- **The regular-expression engine.** Matching is a function parameter of `IsValid`, and whether a pattern compiles is a function parameter of `Initialize`.
- **In-place map mutation.** `updateAttendee` removes the requester from the in-memory attendee map after the row was written (SessionBo.kt:114-115). The model keeps that mutation out: the stored row does not change, and the cancellation re-reads the row.
- **Fields the core never reads.** `Journal.toSimplifiedJournal` and the `User` fields other than name, email and phone are not modelled.
- SessionBusiness.SessionBo.CreateSessions: the agreement of the two tables is promised only when the random room id is not already a session id. A collision overwrites the older row, as the source does.
- SessionBusiness.SessionBo.GetSessions: the order of the sessions is not stated, because the store does not fix it.
