# Habit tracker core, modelled in Dafny

The application tracks daily habit ratings ("7 kebiasaan anak Indonesia
hebat") of school students. Teachers own students. Each day a teacher rates
each student on seven habits, using a five-label scale from "Sangat Tidak
Terbiasa" to "Sudah Terbiasa". Administrators read the teachers' monthly
recaps and exchange messages with them.

This project models the core of that application as pure functions over
immutable data:

- the rating scale and the label-to-score map (`Scale`);
- the records (`Records`);
- the monthly class recap (`Recap`) and its spreadsheet layout (`Sheet`);
- the teacher dashboard's browser-storage handlers: habit upsert, student
  add/edit/delete and spreadsheet import (`TeacherStore`);
- the hosted-database operations: teacher bulk import, student deletes,
  habit save and messages (`Api`, `Messages`);
- the administrator view's guards and message filters (`AdminView`);
- the login lookup (`Login`) and the radar-chart points (`Chart`);
- the seed data, used as concrete witnesses (`Seed`).

Each collection is a sequence in storage order. A query by field equality
is a filter over that sequence. Generated identifiers (`Date.now()`,
`Math.random()`, database ids) and the current time are parameters, and
nothing is assumed about their uniqueness. Timestamps are integers
(milliseconds).

`Seqs` holds the generic pieces that stand for the JavaScript array
methods: `filter`, `findIndex` and the stable `sort`. `Text` holds
`trim`, `startsWith`, `includes`, `String(n)` and `padStart`. `Calendar`
holds the month-length computation the recap gets from `Date`.

Where the code and the design description differ, the model follows the
code:

- The recap keeps the roster in storage order. The design describes it
  as sorted by name, but the code never sorts it.
- A recap cell holds the 1..5 score, or "-". The design describes it as
  holding the rating label.
- The administrator's account, teacher and admin management calls only
  reach a placeholder request function. So there is no username-conflict
  error and no teacher cascade delete to model.

## Model

| member | source | states |
|---|---|---|
| Seqs.FilterMembership | pages/TeacherDashboard.tsx:72 | `filter` keeps exactly the elements of the input that satisfy the predicate |
| Seqs.FilterMultiplicity | pages/TeacherDashboard.tsx:72 | `filter` keeps each satisfying element as often as it occurs in the input and drops every other element |
| Seqs.FilterConcat | pages/TeacherDashboard.tsx:274-276 | filtering a concatenation is the concatenation of the filtered parts, so the order of the kept elements is the input order |
| Seqs.FilterKeepsStrictOrder | components/HabitChart.tsx:19 | filtering a list in strict key order leaves a list in strict key order |
| Seqs.FindIndex | pages/TeacherDashboard.tsx:218 | `findIndex` returns the first index whose element matches, and none exactly when no element matches |
| Seqs.SortBy | pages/AdminDashboard.tsx:403 | sorting by a numeric key returns a permutation of the input in non-decreasing key order |
| Scale.HabitNames | constants.ts:4-12 | the habit names are exactly "Bangun Pagi", "Beribadah", "Olahraga", "Makan Sehat", "Rajin Belajar", "Bermasyarakat", "Tidur Cukup", and each habit's name sits at its list position |
| Scale.HabitListDistinct | constants.ts:4-12 | there are exactly seven habits, every habit is listed, and the seven names are pairwise distinct |
| Scale.RatingListDistinct | constants.ts:14-20 | there are exactly five rating options, every rating is listed, and the five labels are pairwise distinct |
| Scale.ParseLabel | constants.ts:22-28 | a label string reads back as the rating whose label it is, and as nothing when no rating has that label |
| Scale.LabelValue | constants.ts:22-28 | looking up a string in the label map gives a score exactly for the five option labels |
| Scale.RatingMapBijection | constants.ts:14-28 | the i-th option maps to i + 1, the map is injective, and score-to-rating inverts it both ways, so it is a bijection onto 1..5 |
| Scale.LabelRoundTrip | constants.ts:22-28 | label, parse and lookup round-trip: the label of a rating parses back to it and looks up to its score |
| Scale.MappedRatings | constants.ts:30-33 | the mapped list has every option once, in option order, with strictly increasing values 1..5 |
| Scale.DefaultIsMidpoint | constants.ts:17-25 | the default label `RATING_OPTIONS[2]` is "Belum Terbiasa" and scores the midpoint 3 |
| Records.DefaultHabits | pages/TeacherDashboard.tsx:89-92 | the empty form rates every habit, each at the default label |
| Text.TrimEmptyIffBlank | pages/AdminDashboard.tsx:324 | `trim()` yields the empty string exactly for strings made only of white space |
| Text.TrimEnds | pages/TeacherDashboard.tsx:177-179 | a trimmed string neither starts nor ends with white space |
| Text.TrimIsTrimOf | pages/TeacherDashboard.tsx:177-179 | `trim()` removes only white space, and only at the two ends: the input is the result with blank text before and after it |
| Text.TrimOfIsTrim | pages/TeacherDashboard.tsx:177-179 | no other string is the input with its surrounding white space removed, so that description determines `trim()` |
| Text.StartsWith | pages/TeacherDashboard.tsx:275 | `startsWith(p)` holds exactly when the string is p followed by some rest |
| Text.NatToStringRoundTrip | pages/TeacherDashboard.tsx:289 | reading back the decimal digits `String(n)` writes gives n |
| Text.Pad2 | pages/TeacherDashboard.tsx:289 | the two-digit padded day is two digits whose value is the day |
| Calendar.DaysInMonth | pages/TeacherDashboard.tsx:268 | day 0 of the next month reads back as the distance from the first of the month to the first of the next, on the month thresholds ECMAScript dates use, between 28 and 31 |
| Calendar.LeapYearHasLeapDay | pages/TeacherDashboard.tsx:268 | the Gregorian leap-year rule holds exactly when the ECMAScript year has 366 days, and exactly when February has 29 days |
| Calendar.MonthsFillYear | pages/TeacherDashboard.tsx:268 | the lengths of months 1..k add up to the start of month k + 1, and the twelve months fill the year |
| Calendar.JsFullYear | pages/TeacherDashboard.tsx:268 | `Date` never yields a two-digit year: a year 0..99 becomes a year of 1900..1999 with the same last two digits, and any other year stays as given |
| Calendar.JsFullYearSettles | pages/TeacherDashboard.tsx:268 | reading a year twice changes nothing, and year y of 0..99 means the same as year 1900 + y |
| Calendar.ReportDays | pages/TeacherDashboard.tsx:267-268 | a `YYYY-MM` value has 28 to 31 days, as many as lie between the first of that month and the first of the next, and a cleared month input has none |
| Recap.DateOf | pages/TeacherDashboard.tsx:289 | the date key of a day is the month value, a dash, and two decimal digits whose value is the day |
| Recap.LastRecordFor | pages/TeacherDashboard.tsx:278-285 | grouping by date and student keeps the last record for the pair, and finds none when the pair has no record |
| Recap.CellFor | pages/TeacherDashboard.tsx:296-302 | a cell is a dash exactly when there is no record or it does not rate the habit; otherwise its score reads back as the stored rating and is what the label-keyed map gives for the stored label |
| Recap.StudentRow | pages/TeacherDashboard.tsx:292-305 | a student's row carries the student's name and one cell for every habit |
| Recap.LastRecordForMonth | pages/TeacherDashboard.tsx:273-276 | narrowing the records to the roster and the month never changes the record found for a roster student on a day of that month |
| Recap.GenerateClassReport | pages/TeacherDashboard.tsx:259-311 | an empty roster gives no report; otherwise one entry per day of the month, numbered from 1, dated month-dash-two-digit day, with one row per roster student in roster order, named after the student, with each cell taken from the last record for that student and date |
| Recap.RecapLaterRecordWins | pages/TeacherDashboard.tsx:278-285 | a record stored after all others for a roster student and a day of the month decides every cell of that row |
| Recap.RecapIgnoresUnrelated | pages/TeacherDashboard.tsx:273-276 | a record of a student outside the roster, or of another month, leaves the recap unchanged |
| Sheet.AppendTitleRows | pages/TeacherDashboard.tsx:364-383 | the title, month, class-and-teacher and spacer rows come first, with their three merges, and `currentRow` counts the four rows |
| Sheet.AppendStudentRows | pages/TeacherDashboard.tsx:396-404 | one row per student of a day, numbered from one, with `currentRow` equal to the number of rows |
| Sheet.AppendDay | pages/TeacherDashboard.tsx:387-407 | a day with students emits its title, header, student rows and spacer, plus one full-width merge on its title row; a day without students emits nothing |
| Sheet.AppendDays | pages/TeacherDashboard.tsx:386-408 | the days' blocks follow in day order; the earlier merges are kept and followed by exactly one full-width merge per day that has students, on that day's title row, which comes right after the rows of the days before it |
| Sheet.DayMergeOnDayTitle | pages/TeacherDashboard.tsx:386-389 | for each day with students, the row after the earlier days' blocks is its one-cell "TANGGAL d" title, and that row is merged over the full width |
| Sheet.MergesSurviveAppend | pages/TeacherDashboard.tsx:370-411 | appending rows never moves a row that an existing merge points at |
| Sheet.DayBlocksLength | pages/TeacherDashboard.tsx:386-408 | the days take the sum of K + 3 rows over the days with K > 0 students |
| Sheet.BuildSheet | pages/TeacherDashboard.tsx:361-411 | the sheet is the title rows, the day blocks and the legend; it has 4 + sum(K + 3) + 1 rows and 4 + (days with students) merges, namely the three title merges, the full-width merge of each non-empty day's title row in day order, and the legend's merge; every merge lies on one row and starts at column 0; a full-width merge covers a one-cell row and the other merge is the class-and-teacher row |
| Sheet.UniformRecapSheetSize | pages/TeacherDashboard.tsx:386-408 | when every one of N days lists the same K > 0 students, the days take N * (K + 3) rows and N merges |
| TeacherStore.FetchStudents | pages/TeacherDashboard.tsx:70-73 | a teacher's roster holds exactly the stored students with that teacher id, each as often as stored, in storage order |
| TeacherStore.FindRecord | pages/TeacherDashboard.tsx:85-86 | `find` returns the first record for (student, date), and none exactly when the pair has none |
| TeacherStore.HabitFormFor | pages/TeacherDashboard.tsx:85-94 | the form shows the first stored record's ratings for the pair, or every habit at the default label |
| TeacherStore.HandleHabitSubmit | pages/TeacherDashboard.tsx:212-230 | without a selected student nothing changes; the first record for the pair gets the new ratings and nothing else changes; without one, exactly one record is appended |
| TeacherStore.CountKeyedUpdate | pages/TeacherDashboard.tsx:218-220 | overwriting a record of a pair in place keeps the pair's record count |
| TeacherStore.HabitSubmitUpserts | pages/TeacherDashboard.tsx:212-230 | after a save the pair has one record if it had none and the same count otherwise, and the form reads back the saved ratings |
| TeacherStore.HabitSubmitKeepsPairsUnique | pages/TeacherDashboard.tsx:212-230 | a save never creates a second record for a (student, date) pair |
| TeacherStore.HabitSubmitTwice | pages/TeacherDashboard.tsx:212-230 | saving twice for a pair with at most one record leaves exactly one record, holding the second save's ratings |
| TeacherStore.HandleStudentSubmit | pages/TeacherDashboard.tsx:115-129 | editing overwrites the form fields of the student with the edited id, keeps its teacher and changes no other student; adding appends one student owned by the current teacher |
| TeacherStore.StudentSubmitRoster | pages/TeacherDashboard.tsx:115-129 | adding puts the new student at the end of the teacher's roster and leaves every other roster unchanged; editing keeps every roster's size |
| TeacherStore.FilterSameTeachers | pages/TeacherDashboard.tsx:119 | rewriting students without changing their owners keeps every roster's size |
| TeacherStore.HandleStudentDelete | pages/TeacherDashboard.tsx:131-142 | without confirmation nothing changes; with it, the student and exactly that student's records go, and every other student and record stays as often as stored, in order |
| TeacherStore.JsString | pages/TeacherDashboard.tsx:177-179 | a missing cell, empty text and the number 0 read as the empty string, other text as itself; a positive number as its decimal digits without leading zero, a negative one as a minus sign followed by the digits of its magnitude |
| TeacherStore.Candidates | pages/TeacherDashboard.tsx:173-179 | each row becomes a student carrying the row's generated id and the current teacher, whose name, NISN and class are the row's "Nama", "NISN" and "Kelas" cells as text with the surrounding white space removed, and that passes the non-empty check exactly when the row's name, NISN and class cells hold more than white space |
| TeacherStore.RowStudentFacts | pages/TeacherDashboard.tsx:176-179 | a row's student passes the non-empty check exactly when its three cells are not blank, and its fields are the cells with surrounding white space removed |
| TeacherStore.ReadFromRowUnique | pages/TeacherDashboard.tsx:173-179 | a student whose fields are a row's cells with surrounding white space removed is that row's student, given its id and teacher |
| TeacherStore.ImportStudents | pages/TeacherDashboard.tsx:169-190 | a first row lacking a header is rejected; with no filled row nothing is written; otherwise every valid candidate (the row's cells, trimmed), as often as it occurs and in row order, and nothing else is appended after the stored students, owned by the current teacher |
| TeacherStore.ImportedFieldsTrimmed | pages/TeacherDashboard.tsx:177-179 | imported names, NISNs and classes have no white space at either end |
| Api.LoginEmail | utils/api.ts:22 | the sign-in name is an address that starts with the login name; it equals the login name exactly when that contains an `@`, and otherwise adds "@example.com" |
| Api.LoginEmailIsAddress | utils/api.ts:22 | deriving the sign-in name again changes nothing |
| Api.TeacherUsernames | utils/api.ts:59-61 | the skip set holds exactly the usernames of teacher accounts stored before the import |
| Api.CreatedDocsContents | utils/api.ts:66-79 | written and skipped rows add up to the input; no written document has a password or a stored teacher's username; every row with a new username is written |
| Api.BulkCreateTeachers | utils/api.ts:53-86 | the created and skipped counts add up to the number of rows; the stored users gain exactly the documents of the rows whose username no stored teacher has, in row order, each without its password |
| Api.DuplicateUsernamesInOneBatch | utils/api.ts:59-71 | a witness of `Api.CreatedDocsContents`, not a separate property: a batch of two rows with the same new username, and no stored teachers, writes two documents, because the skip set is not updated in the loop |
| Api.AdminUsernameNeverBlocks | utils/api.ts:59-61 | adding an admin account to any stored users changes neither the skip set nor what any import writes |
| Api.AdminNamedRowWritten | utils/api.ts:59-70 | a row whose username belongs to an admin and to no stored teacher is written |
| Api.DeleteStudent | utils/api.ts:110-124 | the student document and exactly the habit records with its id are removed; every other document stays as often as stored, in order |
| Api.DeleteVariantsAgree | utils/api.ts:110-124 | the hosted delete leaves the same collections as a confirmed delete in browser storage |
| Api.BulkDeleteStudents | utils/api.ts:137-151 | an empty id list fails; otherwise exactly the listed students and their habit records are removed, and every other document stays as often as stored, in order |
| Api.KeptStep | utils/api.ts:137-151 | deleting the students of a list and then one more is deleting the students of the longer list |
| Api.BulkDeleteIsRepeatedDelete | utils/api.ts:137-151 | a bulk delete of a non-empty list equals deleting the listed students one at a time |
| Api.SaveHabitRecord | utils/api.ts:163-178 | with no record for (student, date) one document is added with the teacher id; otherwise the first one found takes the saved fields and keeps its id, and nothing else changes |
| Api.SaveHabitRecordUpserts | utils/api.ts:163-178 | a save adds a record only for a pair with none, the form then reads back the saved ratings, and unique pairs stay unique |
| Messages.UniqueIdsCount | utils/api.ts:237-247 | a list has no duplicate ids exactly when it has as many ids as messages |
| Messages.SameIdsWhenPermuted | utils/api.ts:247 | sorting does not change the set of ids |
| Messages.SendMessage | utils/api.ts:204-222 | the corrected send: a sent message is appended unread, with the current time and the given id, its fields from the draft, an attachment pointing at its uploaded copy, and no attachment when none was given |
| Messages.SendMessageAsWritten | utils/api.ts:204-222 | the send as written fails and stores nothing exactly when the draft has no attachment; otherwise it stores what the corrected send stores |
| Messages.TextOnlySendLost | utils/api.ts:216-221 | a text-only greeting is lost by the send as written, and the corrected send stores it as the one new message |
| Messages.MarkMessagesAsRead | utils/api.ts:250-266 | exactly the unread messages from the sender to the recipient become read; nothing else changes |
| Messages.MarkMessagesAsReadSettles | utils/api.ts:250-266 | afterwards nothing from the sender to the recipient is unread, and marking again changes nothing |
| Messages.MapSet | utils/api.ts:237-239 | `Map.set` adds the message's id to the ids, keeps ids unique, and introduces no other message |
| Messages.MapSetAll | utils/api.ts:237-245 | setting a list of messages in turn gives the union of the ids, still unique, and only messages from the inputs |
| Messages.MergedMessages | utils/api.ts:224-245 | the merged map holds only relevant messages, and at least one with each relevant id |
| Messages.GetMessagesForUser | utils/api.ts:224-248 | the list has unique ids, ascending timestamps, only messages sent by or to the user (plus broadcasts for a teacher), and every such message's id |
| Messages.MessagesForUserExact | utils/api.ts:224-248 | when the stored ids are unique, the list holds exactly the relevant messages |
| Messages.BroadcastOnlyForTeachers | utils/api.ts:242-245 | a user who is not a teacher sees only messages sent by or to them |
| AdminView.EffectiveTab | pages/AdminDashboard.tsx:142-146 | only `admin01` stays on the admins tab; anyone else there is moved to teachers, and every other tab is kept |
| AdminView.EffectiveTabSettles | pages/AdminDashboard.tsx:142-146 | applying the tab rule a second time changes nothing |
| AdminView.FilteredMessages | pages/AdminDashboard.tsx:395-404 | no selection gives nothing; the broadcast entry gives exactly the broadcasts, each as often as listed, in list order; any other selection gives exactly the messages between the two accounts, in either direction, ascending by timestamp |
| AdminView.UnreadSenders | pages/AdminDashboard.tsx:122-128 | the unread senders are exactly the senders of unread messages addressed to the user |
| AdminView.MarkReadClearsSender | pages/AdminDashboard.tsx:154-164 | marking a sender's messages as read removes exactly that sender from the unread senders |
| AdminView.ShouldMarkReadIffChanges | pages/AdminDashboard.tsx:156-157 | for a specific non-broadcast correspondent, the request goes out exactly when marking would change the user's messages |
| AdminView.MarkReadRequestStops | pages/AdminDashboard.tsx:154-164 | with the request taken to be the hosted API's mark-as-read and the refetch its per-user query, no further request follows for the same selection after them |
| AdminView.SentMessageIsUnread | pages/AdminDashboard.tsx:122-128 | with the send taken to be the hosted API's (corrected) send and the recipient's list its per-user query, the message just sent makes its sender an unread sender for the recipient |
| AdminView.SortReports | pages/AdminDashboard.tsx:108 | reports are a permutation of the input, newest submission first |
| AdminView.HandleSendMessage | pages/AdminDashboard.tsx:322-338 | blank text without a file is ignored; otherwise a missing recipient is reported; otherwise the typed text goes to the selected recipient |
| AdminView.SendGoesOutWhenComplete | pages/AdminDashboard.tsx:324-328 | text or a file with a chosen recipient is always sent |
| AdminView.HandleAccountUpdate | pages/AdminDashboard.tsx:288-298 | a non-empty password that differs from its confirmation aborts the update; otherwise the payload has the name and username, plus the password exactly when it is non-empty |
| AdminView.AttachmentLimitBoundary | pages/AdminDashboard.tsx:374 | exactly five mebibytes is accepted, one byte more is not, and acceptance is downward closed |
| Login.HandleSubmit | pages/LoginPage.tsx:15-27 | login succeeds exactly when a stored account matches both fields exactly, and it picks the first such account; the error shown afterwards is empty on success and the fixed message on failure, whatever was shown before |
| Login.LoginIsExact | pages/LoginPage.tsx:19-26 | the logged-in account is stored and carries the typed name and password unchanged, and with no stored list every attempt fails |
| Chart.RatedHabits | components/HabitChart.tsx:19 | the chart's habits are exactly the habits the record rates, each once, in habit-list order |
| Chart.Points | components/HabitChart.tsx:19-25 | one point per rated habit, in habit-list order, with pairwise different subjects |
| Chart.PointsContents | components/HabitChart.tsx:19-25 | every rated habit has its point and every point belongs to a rated habit, with a score within 0..fullMark |
| Chart.ChartData | components/HabitChart.tsx:10-25 | no record gives no data; otherwise the points are exactly those of the rated habits, each with fullMark 5 and a score in 1..5 |
| Chart.RatedHabitsComplete | components/HabitChart.tsx:19 | a record rating every habit charts the habits in habit-list order |
| Chart.CompleteRecordChart | components/HabitChart.tsx:19-25 | a record rating every habit gives seven points named by the habit-name list |
| Chart.ChartAgreesWithRecap | components/HabitChart.tsx:23 | a habit's chart point has the score the monthly recap shows for the same record |
| Seed.SeedUsersDistinct | utils/initialData.ts:5-31 | seed user ids are pairwise distinct, and so are seed usernames |
| Seed.SeedStudentsOwned | utils/initialData.ts:33-41 | every seed student belongs to a seed teacher account |
| Seed.SeedRosterFirstTeacher | utils/initialData.ts:34-37 | teacher01's roster is student01 to student03 |
| Seed.SeedRosterSecondTeacher | utils/initialData.ts:38-40 | teacher02's roster is student04 and student05 |
| Seed.SeedRecordScores | utils/initialData.ts:43-57 | the seed record rates all seven habits, scoring 4, 5, 3, 4, 5, 4, 3 in habit-list order |
| Seed.May2024 | utils/initialData.ts:47 | "2024-05" is a month value with 31 days |
| Seed.SeedLastRecords | utils/initialData.ts:43-57 | on 2024-05-20 Adi's last record is the seed record, and Citra and Doni have none |
| Seed.SeedRecapWitness | utils/initialData.ts:35-57 | teacher01's May 2024 recap has 31 days; on the 20th Adi scores 4, 5, 3, 4, 5, 4, 3, and Citra and Doni show dashes |
| Seed.SeedUnreadWitness | utils/initialData.ts:60-79 | admin01's unread senders are exactly {teacher01} |
| Seed.SeedMessagesUnique | utils/initialData.ts:60-79 | the seed messages have distinct ids |
| Seed.SeedTeacherAccounts | utils/initialData.ts:13-30 | teacher01 and teacher02 are teacher accounts |
| Seed.SeedInboxFirstTeacher | utils/initialData.ts:60-79 | teacher01 sees both the broadcast and the message they sent |
| Seed.SeedInboxSecondTeacher | utils/initialData.ts:60-79 | teacher02 sees the broadcast and not teacher01's message |
| Seed.SeedLoginWitness | utils/initialData.ts:13-21 | "guru1" / "password" logs in as teacher01; a wrong password or a different letter case fails |

## Left out

- Rendering, tabs, modals, the emoji picker and scroll effects are user interface with no data logic.
- The spreadsheet and PDF libraries are not modelled: reading workbooks, writing files, column widths, canvas capture and PDF paging. Import starts from the rows the spreadsheet reader returns. Export ends at the cell matrix and merge list.
- Firebase setup, authentication (`signInWithEmailAndPassword`, `updatePassword`), attachment upload and `processDoc` are foreign SDK calls. The upload's download URL is a parameter of `SendMessage`. Timestamps are integers throughout.
- Identifiers come from `Date.now()`, `Math.random()` and the database. They are parameters, and nothing is claimed about their uniqueness.
- Concurrency is not modelled. That covers `Promise.all`, batch atomicity and the time between a query and its write. Each operation is one sequential step.
- Recap.GenerateClassReport: the month name from `toLocaleString` and the report metadata are not modelled (locale formatting). The month input is assumed empty or `YYYY-MM`, as a month input yields.
- Messages.GetMessagesForUser: the three queries return documents in collection order here. The database returns them in document-id order. The set of ids and the timestamp order do not depend on this.
- Api.SaveHabitRecord: "the first document found" is the first in collection order, for the same reason.
- Api.BulkDeleteStudents: the database caps the size of an `in` list. That cap is not modelled. Only the rejection of an empty list is.
- `getUsers`, `updateUser`, `getStudents`, `createStudent`, `updateStudent`, `bulkCreateStudents`, `getHabitRecordsForTeacher`, `getReports`, `sendReportToAdmin` and `deleteMessage` are not modelled. Each is a single query, add, update or delete with no logic of its own.
- The administrator's teacher, admin, message and account calls only reach a placeholder request function that stores nothing. Only the guards in front of them are modelled, except that `AdminView.MarkReadRequestStops` and `AdminView.SentMessageIsUnread` take the request to be the hosted API's operation (`Messages.MarkMessagesAsRead`, `Messages.SendMessage`, `Messages.GetMessagesForUser`) and join the guards to it.
- Chart.Points: the chart iterates the record's keys in insertion order. The model uses the habit-list order. That is the insertion order of every record the input form writes, because the form starts from all seven habits in list order.
- TeacherStore.ImportStudents: a cell value is text or an integer. Fractional numbers, booleans and dates from the spreadsheet reader are not modelled.
- TeacherStore.HandleStudentSubmit: the collection is passed in parsed, and a missing storage key reads as an empty list. Malformed stored JSON is not modelled.
- The student `class` field is named `className`, because `class` is a Dafny keyword.
- Seqs.SortBy: stability (equal keys keep their input order) is how it is built, but it is not stated as a contract. The contracts state the permutation and the order.
- Session handling and seeding of browser storage at startup are storage plumbing with no logic to verify.
- JavaScript number ranges are not modelled. `new Date` has no valid value from late in year 275760 on, so such a month gives no recap days in the code, while `Calendar.ReportDays` still gives 28 to 31. `String(n)` switches to exponent notation from 10^21 on, while `TeacherStore.JsString` writes every digit.

## Findings

| source | as written | input that shows it | evidently intended | confidence | as-written member | corrected member |
|---|---|---|---|---|---|---|
| utils/api.ts:216-221 | the new message document always carries `attachment: finalAttachment`. That value is `undefined` when no file was attached. The database client is created without `ignoreUndefinedProperties` (utils/firebase.ts:25), and by default it refuses an `undefined` field value, so the add fails | a text-only draft such as "Halo" from teacher01 to admin01 (`Messages.TextOnlySendLost`) | a text-only message is stored without an attachment field and reaches the recipient unread (`AdminView.SentMessageIsUnread`) | not executed; rests on the documented default of the database client | Messages.SendMessageAsWritten | Messages.SendMessage |
