# Mural scheduling and data-integrity core, in Dafny

This project models the logic behind a school's digital bulletin board ("mural").
The board shows ongoing courses, open enrollments, news and a video, and an
administration panel edits that data. The model covers:

- **Room/time conflict check** (`ScheduleService`). Two weekly slots clash when
  they fall on the same weekday and their half-open `[start, end)` intervals
  overlap. The "HH:mm" strings are compared with JavaScript's string order,
  which `Text.Less` defines. A course conflicts with a candidate when its room
  is equal after trimming and lower-casing. The first clash is reported in
  loop order: candidate schedule, then compared course, then that course's
  schedule. A candidate that carries an id is never compared with courses
  having that id.
- **CSV bulk import parser** (`CsvParser`). It checks the header, then reads
  the data lines. A blank line is skipped, and a line with an empty required
  field is an error. It then validates the weekday and the time shape and
  groups rows into courses by the lower-cased `room-courseName-block` key.
  The result is all or nothing. Errors are values (`CsvError`), and `Message`
  spells each one.
- **Persisted-state sanitiser** (`DataService`). It turns an untyped JSON blob
  (`JsValue.Value`) into canonical `AppData`, field by field, using
  JavaScript's `||`, `??`, `String(...)` and `Number(...)`. Also modelled are
  the field-wise merge of `saveData`, the shape check of `importBackup` and
  the fallback of `loadUsers`.
- **Admin list operations** (`AdminPanel`):
  - save and delete by id;
  - adding and removing schedules in the edit form;
  - the search filters;
  - the batch CSV import with its incremental conflict check;
  - the CSV export, with the quote escaping of RFC 4180 (section 2,
    item 7) in `CsvQuoting`.
- **Shift filter and block grouping** (`OngoingCourses`): the current shift,
  the shift filter, the per-block grouping, the sorted block keys and the
  block carousel.
- **Layout reordering** (`Mural`): swapping two panel ids in `layoutOrder`
  on drop, and the fallback to the default order.

The form of the model follows the code:

- Pure list transforms are functions.
- Loops that push into arrays are methods proved against those functions:
  - the parser's row and grouping loops;
  - the import's batch loop;
  - the export loops;
  - the grouping `reduce`.
- The two components that keep mutable state are classes:
  - the mural's drag refs, with an in-place array swap;
  - the ongoing-courses panel's active list and carousel index.

The clock, the current weekday and hour, and the fresh-id supplies
(`crypto.randomUUID`, the import's temporary ids) are parameters.

Quirks of the code are modelled as written and stated by lemmas:

- The grouping phase numbers errors `index + 2` over the kept rows
  (`CsvParser.GroupErrorsAreRejections`).
- The hyphen-joined key is ambiguous (`CsvParser.ExampleAmbiguousKey`).
- The time check accepts "99:99" and does not ask for start < end
  (`CsvParser.TimeFormatExamples`).
- `parseInt` reads a leading-digit prefix (`CsvParser.ParseIntReadsDigitPrefix`).
- Any value of length 4 is a valid `layoutOrder`
  (`DataService.ExampleStringLayoutOrder`).
- The settings merge keeps unknown and wrongly typed fields
  (`DataService.StoredFooterFieldKept`).
- A stored id `[]` survives one load as `""` and is replaced on the next
  (`DataService.ExampleEmptyArrayIdReplaced`).

Two places where the system's written design and its code disagree follow the
code:

- The design asks `layoutOrder` to hold four recognised panel ids. The code
  (services/dataService.ts:41) checks only that the value has length 4.
- The design says unknown settings fields are discarded. The spread merge
  (services/dataService.ts:42-53) keeps them.

## Model

| member | source | states |
|---|---|---|
| `ScheduleService.TimesOverlapSymmetric` | services/scheduleService.ts:3-5 | swapping the two intervals does not change the overlap answer |
| `ScheduleService.TimesOverlap` | services/scheduleService.ts:3-5 | `startA < endB && endA > startB` on half-open intervals: intervals that only touch (one ends where the other starts) never overlap |
| `ScheduleService.ContainedIntervalOverlaps` | services/scheduleService.ts:3-5 | a non-empty interval inside another overlaps it |
| `ScheduleService.CoursesToCompare` | services/scheduleService.ts:18-20 | a course is compared exactly when it is in the list and the candidate has no id or a different id |
| `ScheduleService.FirstClashingCourseSpec` | services/scheduleService.ts:23-38 | the inner loops return the first course in the same room with a clashing slot, or nothing exactly when no course clashes |
| `ScheduleService.FirstConflictSpec` | services/scheduleService.ts:22-40 | the outer loop returns the result for the first candidate schedule that finds a clash, or nothing exactly when none does |
| `ScheduleService.ScheduleConflict` | services/scheduleService.ts:13-43 | a reported course is one of `allCourses`, is compared with the candidate (not excluded by id) and is in the same room |
| `ScheduleService.FindScheduleConflict` | services/scheduleService.ts:13-43 | the triple loop with early return computes exactly `ScheduleConflict`, the specification that the lemmas below characterise |
| `ScheduleService.ConflictIsSound` | services/scheduleService.ts:24-35 | a reported course is in `allCourses`, is not excluded by id, has the same room key, and has a slot clashing with a candidate slot |
| `ScheduleService.NoConflictIffNoClash` | services/scheduleService.ts:22-42 | nothing is reported exactly when no (candidate schedule, compared course, its schedule) triple matches room, day and overlap |
| `ScheduleService.NoClashFound` | services/scheduleService.ts:23-38 | when the inner loops find nothing, no compared course clashes with that schedule |
| `ScheduleService.ConflictIsFirstMatch` | services/scheduleService.ts:22-37 | the reported course is the first clashing compared course for the earliest candidate schedule that has any clash |
| `ScheduleService.EmptyInputsNeverConflict` | services/scheduleService.ts:22-42 | a candidate without schedules, or an empty course list, yields no conflict |
| `ScheduleService.ScheduleConflictNoneWhenNothingCompared` | services/scheduleService.ts:22-42 | with no course to compare, every candidate schedule list yields no conflict |
| `ScheduleService.NoSelfConflict` | services/scheduleService.ts:18-20 | a candidate with an id is never reported against a course carrying that id, itself included |
| `ScheduleService.FirstScheduleClashReported` | services/scheduleService.ts:22-35 | a new course whose first slot clashes with the first slot of the only course, in the same room, is reported against that course |
| `ScheduleService.ExampleRoomKeys` | services/scheduleService.ts:24 | "Sala 101" and "sala 101" have the same room key |
| `ScheduleService.ExampleContainedSlot` | services/scheduleService.ts:26-33 | 10:00-11:00 clashes with 08:00-12:00 on the same weekday |
| `ScheduleService.ExampleCaseInsensitiveRoomClash` | services/scheduleService.ts:22-42 | a room differing only in case, on the same day and at a contained time, is reported |
| `Text.LessIrreflexive` | services/scheduleService.ts:4 | no string is below itself in JavaScript string order |
| `Text.LessAsymmetric` | services/scheduleService.ts:4 | string order is asymmetric |
| `Text.LessTransitive` | services/scheduleService.ts:4 | string order is transitive |
| `Text.LessTotal` | services/scheduleService.ts:4 | any two strings are ordered one way or the other, or are equal |
| `Text.LessEqLessTransitive` | services/scheduleService.ts:4 | `a <= b < c` gives `a < c` |
| `Text.LessLessEqTransitive` | services/scheduleService.ts:4 | `a < b <= c` gives `a < c` |
| `Text.LowerChar` | services/scheduleService.ts:24 | `toLowerCase` on one character maps A-Z to a-z, leaves other non-Latin-1 characters alone, and never yields A-Z |
| `Text.ToLower` | services/scheduleService.ts:24 | `toLowerCase` keeps the length and leaves no capital A-Z |
| `Text.ToLowerIdempotent` | services/scheduleService.ts:24 | lower-casing twice is lower-casing once |
| `Text.Trim` | services/scheduleService.ts:24 | `trim` never lengthens and leaves no whitespace at either end |
| `Text.TrimIsSlice` | services/scheduleService.ts:24 | `trim` returns a contiguous slice of its input |
| `Text.TrimEmptyIffBlank` | services/csvParser.ts:38 | `line.trim()` is empty exactly when the line is all whitespace |
| `Text.JoinSplit` | services/csvParser.ts:40 | joining the pieces of `split(sep)` with `sep` gives the text back |
| `Text.SplitJoin` | services/csvParser.ts:40 | splitting a join of separator-free pieces gives the pieces back |
| `Text.DigitsValueOfNatToString` | components/AdminPanel.tsx:422 | the digits `String(n)` writes have the value `n` |
| `Seqs.Filter` | components/AdminPanel.tsx:318 | `filter` keeps exactly the elements satisfying the predicate, as a subsequence |
| `Seqs.IndexOf` | components/Mural.tsx:54 | `indexOf` is -1 exactly when the element is absent, and otherwise the first position holding it |
| `JsValue.Get` | services/dataService.ts:38 | a property read gives the stored field of a plain object and `undefined` otherwise |
| `JsValue.Or` | services/dataService.ts:38 | `a \|\| b` is `a` when `a` is truthy and `b` otherwise |
| `JsValue.Nullish` | services/dataService.ts:85 | `a ?? b` is `b` exactly when `a` is null or undefined |
| `JsValue.NumberOf` | services/dataService.ts:63 | `Number` keeps numbers and maps booleans to 1/0 and null to 0 |
| `JsValue.SpreadEntries` | services/dataService.ts:42-45 | object spread copies an object's fields, an array's indexed elements, and nothing from other primitives |
| `JsValue.IndexedEntries` | services/dataService.ts:42-45 | the properties of an array-like value are exactly its decimal indices, each holding its element |
| `CsvParser.ReadLine` | services/csvParser.ts:37-51 | a line is skipped exactly when blank, and a read row has all six fields filled |
| `CsvParser.ToRow` | services/csvParser.ts:46-51 | a row built from complete row data has every field non-empty |
| `CsvParser.DigitPrefix` | services/csvParser.ts:65 | the longest prefix of decimal digits, stopping at the first non-digit |
| `CsvParser.ParseInt` | services/csvParser.ts:65 | `parseInt(s, 10)`: a text without any digit is NaN (its values are stated by the `ParseIntOf*` lemmas) |
| `CsvParser.CheckRow` | services/csvParser.ts:64-77 | a bad day is flagged exactly when `parseInt` is NaN or outside 0..6; a row passes exactly when day and both times are valid, with the parsed day and the row's times |
| `CsvParser.RowRejection` | services/csvParser.ts:70-77 | a row yields no error exactly when it is valid |
| `CsvParser.ParseCoursesFromCsv` | services/csvParser.ts:18-96 | the header checks, the row loop and the grouping loop compute exactly `ParseCsv` |
| `CsvParser.CollectRowsNext` | services/csvParser.ts:36-52 | one more data line leaves the rows alone when blank, adds "Linha i+1" when incomplete, and adds the row otherwise |
| `CsvParser.ReadLineInto` | services/csvParser.ts:37-51 | the loop body for line `i` advances the rows and errors from `CollectRows` at `i` to `CollectRows` at `i+1` |
| `CsvParser.ReadRows` | services/csvParser.ts:33-52 | the `for` loop over the data lines produces the rows and errors of `CollectRows` over every line |
| `CsvParser.BuildRowData` | services/csvParser.ts:41-44 | the header `reduce` builds the row object, the last duplicate column winning |
| `CsvParser.GroupCourses` | services/csvParser.ts:59-89 | the `forEach` produces the insertion-ordered map and the errors of `GroupRows` |
| `CsvParser.GroupRowInto` | services/csvParser.ts:62-88 | the `forEach` body for one row performs exactly one step of `GroupRows`: an error for a bad day or time, else a schedule added under the row's key |
| `CsvParser.SplitInTwoIffSeparator` | services/csvParser.ts:19-20 | a text splits into two or more lines exactly when it contains a newline |
| `CsvParser.TooFewLinesRejected` | services/csvParser.ts:19-22 | fewer than two lines exactly when the trimmed text has no newline, and then the single "empty CSV" error |
| `CsvParser.BlankTextRejected` | services/csvParser.ts:19-22 | blank text gives no courses and the single "empty CSV" error |
| `CsvParser.MissingHeadersRejected` | services/csvParser.ts:24-31 | the missing names are exactly the expected headers absent from the header, in expected order; if any, the result is that one error and no rows are read |
| `CsvParser.ParseCsv` | services/csvParser.ts:18-96 | the whole parse: errors and courses never come together (its error paths and its grouping are stated by the lemmas below) |
| `CsvParser.ParseIntOfIntToString` | services/csvParser.ts:65 | `parseInt(String(n))` is `n` for every integer |
| `CsvParser.ParseIntOfDigits` | services/csvParser.ts:65 | a run of digits, with or without a leading minus, parses to its value |
| `CsvParser.ParseIntOfUnsigned` | services/csvParser.ts:65 | a run of digits parses to its value |
| `CsvParser.ParseIntOfNegative` | services/csvParser.ts:65 | a minus followed by digits parses to the negated value |
| `CsvParser.ParseIntOfTrimmed` | services/csvParser.ts:65 | text without leading blanks parses to the digits after an optional sign, negated for "-" |
| `CsvParser.DigitPrefixOfDigits` | services/csvParser.ts:65 | an all-digit string is its own digit prefix |
| `CsvParser.ParseIntReadsDigitPrefix` | services/csvParser.ts:65 | `parseInt("3abc")` is 3 |
| `CsvParser.ParseIntNegativeZero` | services/csvParser.ts:65 | `parseInt("-0")` is 0 |
| `CsvParser.ParseIntNoDigits` | services/csvParser.ts:65-70 | `parseInt("abc")` is NaN |
| `CsvParser.TimeFormatExamples` | services/csvParser.ts:74 | "99:99" passes the time pattern, "8:00", "08h00" and "08:00 " fail, and a row ending before it starts is valid |
| `CsvParser.TimeOrderIsNumeric` | services/csvParser.ts:74 | on "HH:mm" strings, string order is the numeric order of the clock values |
| `CsvParser.CollectRowsAccountsForEveryLine` | services/csvParser.ts:36-52 | every non-blank line gives one row or one error, and every kept row has all fields filled |
| `CsvParser.CollectRowsReportsIncompleteLines` | services/csvParser.ts:46-48 | phase-one errors are exactly "Linha i+1" for each incomplete line `i` |
| `CsvParser.IncompleteLineListed` | services/csvParser.ts:46-48 | an incomplete line is reported once the loop has passed it |
| `CsvParser.CollectedErrorExplained` | services/csvParser.ts:46-48 | every phase-one error names an incomplete line |
| `CsvParser.AddScheduleKeepsValid` | services/csvParser.ts:79-80 | pushing a valid schedule onto a valid parsed course keeps it valid |
| `CsvParser.GroupRowsCountsRows` | services/csvParser.ts:61-89 | each row adds exactly one schedule or one error |
| `CsvParser.GroupedCoursesValid` | services/csvParser.ts:61-89 | every stored course has no id, at least one schedule, days in 0..6 and "HH:mm" times |
| `CsvParser.GroupErrorsIffBadRow` | services/csvParser.ts:70-77 | the grouping reports no error exactly when every row is valid |
| `CsvParser.GroupRowsAccountsForEveryRow` | services/csvParser.ts:61-89 | the three facts above together |
| `CsvParser.GroupErrorsAreRejections` | services/csvParser.ts:70-77 | the grouping errors are one per rejected row, in row order, numbered `index + 2` over the kept rows |
| `CsvParser.RejectionListed` | services/csvParser.ts:70-77 | each rejected row's error is reported |
| `CsvParser.RejectionExplained` | services/csvParser.ts:70-77 | each reported error comes from a rejected row |
| `CsvParser.GroupRowsReportsRejectedRows` | services/csvParser.ts:70-77 | rejected rows and reported errors correspond both ways |
| `CsvParser.GroupRowsStep` | services/csvParser.ts:79-88 | a known key leaves the map's keys alone; a new key is appended |
| `CsvParser.GroupKeysAreRowKeys` | services/csvParser.ts:79-88 | the map holds each key once, and exactly the keys of the rows |
| `CsvParser.GroupKeysDistinct` | services/csvParser.ts:79-88 | no key is stored twice |
| `CsvParser.GroupKeysMembership` | services/csvParser.ts:79-88 | a key is stored exactly when some row has it |
| `CsvParser.GroupKeyOrderAt` | services/csvParser.ts:79-95 | of two entries, the earlier one's key first appears earlier among the rows |
| `CsvParser.GroupKeysInFirstAppearanceOrder` | services/csvParser.ts:79-95 | the entries come in order of their keys' first appearance |
| `CsvParser.FirstSpellingAt` | services/csvParser.ts:82-87 | an entry has the room, name and block of the first row with its key |
| `CsvParser.GroupKeepsFirstSpelling` | services/csvParser.ts:82-87 | every entry keeps the first row's spelling |
| `CsvParser.GroupSchedulesFollowRows` | services/csvParser.ts:79-87 | an entry's schedules are those of the rows with its key, in row order |
| `CsvParser.SchedulesOfAbsentKey` | services/csvParser.ts:79-87 | a key no row has collects no schedule |
| `CsvParser.IncompleteIffMissingField` | services/csvParser.ts:46 | a line is incomplete exactly when it is non-blank and a required field is missing or empty |
| `CsvParser.ReadCountIsNonBlankCount` | services/csvParser.ts:38 | the lines the loop does not skip are exactly the non-blank lines |
| `CsvParser.ChecksOfRowsSound` | services/csvParser.ts:70-77 | every accepted row carries a valid schedule, and every row passes exactly when every row is valid |
| `CsvParser.SchedulesOfCheckRows` | services/csvParser.ts:64-87 | the schedules collected for a key are those the valid rows with that key describe |
| `CsvParser.KeysOfCheckRows` | services/csvParser.ts:62 | the keys of accepted rows are the lower-cased `room-courseName-block` keys |
| `CsvParser.GroupKeysAreCourseKeys` | services/csvParser.ts:62-87 | each entry is stored under the key of its own spelling |
| `CsvParser.ParseSuccessShape` | services/csvParser.ts:18-95 | on success: header complete, no incomplete line, every row valid, every course valid, one schedule per non-blank data line |
| `CsvParser.ParseCsvSucceeded` | services/csvParser.ts:91-95 | on success the courses are the grouping of the kept rows, all valid |
| `CsvParser.GroupedKeysDistinct` | services/csvParser.ts:79-88 | grouping valid rows gives one course per distinct key |
| `CsvParser.GroupedCoversRows` | services/csvParser.ts:79-88 | every valid row's key has a course |
| `CsvParser.GroupedSpelling` | services/csvParser.ts:79-88 | each course is spelled as the first row with its key and holds its rows' schedules in order |
| `CsvParser.GroupedInFirstRowOrder` | services/csvParser.ts:59-95 | the courses come in order of the first row with their key |
| `CsvParser.GroupingOfValidRows` | services/csvParser.ts:59-95 | the four grouping facts above, for any list of valid rows |
| `CsvParser.ParseGrouping` | services/csvParser.ts:59-95 | on success the courses are the kept rows grouped by key: distinct, covering, first spelling, first-appearance order |
| `CsvParser.IncompleteLinesReported` | services/csvParser.ts:46-56 | with an accepted header, each incomplete line is reported as "Linha i+1" with no courses, and only such errors are reported |
| `CsvParser.PhaseOneErrorsReturned` | services/csvParser.ts:54-56 | phase-one errors are returned as they are, with no courses |
| `CsvParser.RejectedRowsReported` | services/csvParser.ts:70-93 | with no incomplete line, each invalid row is reported as `index + 2`, nothing else is, and the parse fails exactly when a row is invalid |
| `CsvParser.PhaseOnePassed` | services/csvParser.ts:54-93 | with no incomplete line, the errors are the grouping loop's |
| `CsvParser.NoIncompleteLineNoError` | services/csvParser.ts:46-56 | without incomplete lines phase one reports nothing |
| `CsvParser.RowRejectionsReported` | services/csvParser.ts:70-77 | the grouping loop reports each invalid row once and nothing else, and fails exactly when a row is invalid |
| `CsvParser.ExampleAmbiguousKey` | services/csvParser.ts:62 | "Lab-1"/"Web" and "Lab"/"1-Web" share a key |
| `CsvQuoting.QuoteField` | components/AdminPanel.tsx:421-427 | a value with a comma or quote is wrapped in quotes; any other value is written as it is |
| `CsvQuoting.ReadPlainOfUnquoted` | components/AdminPanel.tsx:426 | an unquoted value reads back up to the next comma |
| `CsvQuoting.ReadQuotedOfDoubled` | components/AdminPanel.tsx:424 | the quote-doubled body and closing quote read back as the value |
| `CsvQuoting.ReadFieldOfQuoted` | components/AdminPanel.tsx:421-427 | a quoted field reads back as the original value and stops at the separator |
| `CsvQuoting.ReadRecordOfQuotedRow` | components/AdminPanel.tsx:414-427 | an exported row, read back with the comma-separated row reader, gives back exactly its values |
| `CsvQuoting.ExampleQuoting` | components/AdminPanel.tsx:421-427 | `a"b` is written `"a""b"` and `Sala 101` is written bare |
| `CsvQuoting.ExampleLineBreakNotQuoted` | components/AdminPanel.tsx:421-432 | a value holding a line break is written bare, so the exported row contains the line break that separates rows in the file |
| `AdminPanel.Upsert` | components/AdminPanel.tsx:307-311 | an edit keeps the length and a new record adds one; a record whose id differs from the edited one stays where it was, unchanged |
| `AdminPanel.UpsertReplacesById` | components/AdminPanel.tsx:307-308 | saving a record with an id replaces exactly the records with that id, leaves the others in place and keeps every position's id |
| `AdminPanel.UpsertAppendsNew` | components/AdminPanel.tsx:309-310 | saving a record without an id appends exactly one record, carrying the fresh id |
| `AdminPanel.UpsertUpdateIdempotent` | components/AdminPanel.tsx:307-308 | saving the same edited record twice equals saving it once |
| `AdminPanel.DeleteById` | components/AdminPanel.tsx:316-323 | delete keeps a subsequence: exactly the records without the id, or everything when the id is null or empty |
| `AdminPanel.DeleteUndoesInsert` | components/AdminPanel.tsx:316-323 | deleting by the fresh id a save just handed out restores the list |
| `AdminPanel.DeleteOpenEnrollment` | components/AdminPanel.tsx:183-190 | a truthy id removes exactly the enrollments carrying it, every other one kept as often as it occurs; a null or empty id changes nothing |
| `AdminPanel.SaveOpenEnrollment` | components/AdminPanel.tsx:170-181 | an edit keeps the length; a new enrollment is appended with the fresh id |
| `AdminPanel.SaveOngoingCourse` | components/AdminPanel.tsx:297-314 | a refusal names a course of the list in the same room; a save keeps the length for an edit and adds one course for a new one |
| `AdminPanel.DeleteOngoingCourse` | components/AdminPanel.tsx:316-323 | a truthy id removes exactly the courses carrying it, every other one kept as often as it occurs; a null or empty id changes nothing |
| `AdminPanel.NoConflictIffNoCollision` | services/scheduleService.ts:13-43 | the checker is silent exactly when the candidate collides with no course of the list |
| `AdminPanel.CollideSymmetric` | services/scheduleService.ts:24-35 | collision between two courses is symmetric |
| `AdminPanel.CollisionFollowsSlots` | services/scheduleService.ts:18-20 | ids only decide which courses are compared; a candidate without id collides by room and slots |
| `AdminPanel.ConflictFreeIffNoneReported` | components/AdminPanel.tsx:301-305 | the list is conflict-free exactly when the checker reports nothing for any of its courses |
| `AdminPanel.SaveRefusedIffCollision` | components/AdminPanel.tsx:301-305 | a save is refused exactly when the edited course collides with a course of the list, and the refusal names such a course |
| `AdminPanel.SavePreservesConflictFreedom` | components/AdminPanel.tsx:297-314 | a save that goes through keeps a conflict-free list conflict-free |
| `AdminPanel.DeletePreservesConflictFreedom` | components/AdminPanel.tsx:316-323 | deleting keeps a conflict-free list conflict-free |
| `AdminPanel.AddScheduleTo` | components/AdminPanel.tsx:334-339 | adding a schedule grows the form's course by one schedule and does nothing without a course |
| `AdminPanel.WithoutIndexSpec` | components/AdminPanel.tsx:347 | filtering out index `i` removes that one element when it exists and nothing otherwise |
| `AdminPanel.RemoveScheduleFrom` | components/AdminPanel.tsx:341-350 | a refusal leaves the form as it is; otherwise only the schedules change and at least one remains |
| `AdminPanel.RemoveScheduleKeepsOne` | components/AdminPanel.tsx:341-350 | removal is refused exactly when there are at most one schedule; otherwise only index `i` goes, at least one schedule stays, and the other fields are kept |
| `AdminPanel.RemoveUndoesAdd` | components/AdminPanel.tsx:334-350 | removing the schedule just added gives the course back |
| `AdminPanel.FilteredCourses` | components/AdminPanel.tsx:448-451 | the search keeps, in order, exactly the courses whose name or room contains the term, ignoring case |
| `AdminPanel.FilteredEnrollments` | components/AdminPanel.tsx:192-194 | the search keeps, in order, exactly the enrollments whose name contains the term, ignoring case |
| `AdminPanel.CourseSearchProperties` | components/AdminPanel.tsx:448-451 | an empty term shows every course, and the term's case does not matter |
| `AdminPanel.EnrollmentSearchProperties` | components/AdminPanel.tsx:192-194 | an empty term shows every enrollment, and the term's case does not matter |
| `AdminPanel.ScanImportNext` | components/AdminPanel.tsx:367-374 | one more parsed course adds a conflict when the check finds one and otherwise joins the set under its temporary id |
| `AdminPanel.ScanCourse` | components/AdminPanel.tsx:367-374 | the loop body for parsed course `i` advances the scan from `ScanImport` at `i` to `i+1` |
| `AdminPanel.ScanBatch` | components/AdminPanel.tsx:364-374 | the batch loop computes `ScanImport` over every parsed course |
| `AdminPanel.HandleFileImport` | components/AdminPanel.tsx:352-386 | the import computes exactly `ImportCsv`: parse, check the batch, then add all or nothing |
| `AdminPanel.ImportCsv` | components/AdminPanel.tsx:352-386 | all or nothing: the import fails on parse errors exactly when there are some; a failure leaves the list unchanged; otherwise every parsed course is appended in order with the fresh id of its position |
| `AdminPanel.ScanAccountsForEveryCourse` | components/AdminPanel.tsx:364-374 | each checked course adds one conflict or one accepted course, and the set only grows from the existing courses |
| `AdminPanel.ScheduleConflictIsSound` | services/scheduleService.ts:13-43 | the checker reports only a course of the list that collides with the candidate |
| `AdminPanel.ScanConflictsAreCollisions` | components/AdminPanel.tsx:367-370 | each conflict names a checked parsed course and a course of the set it collides with |
| `AdminPanel.CleanScan` | components/AdminPanel.tsx:365-373 | with no conflict, the set is the existing courses plus every parsed course under its temporary id |
| `AdminPanel.CleanScanChecked` | components/AdminPanel.tsx:367-373 | with no conflict, parsed course `j` passed the check against the existing courses plus the parsed courses before it |
| `AdminPanel.AcceptedVsExisting` | components/AdminPanel.tsx:367-383 | an accepted parsed course, under its final id, collides with no existing course |
| `AdminPanel.AcceptedVsEarlier` | components/AdminPanel.tsx:367-383 | an accepted parsed course collides with no earlier parsed course, under the final ids |
| `AdminPanel.AcceptedDoesNotCollide` | components/AdminPanel.tsx:367-383 | an accepted parsed course collides with no course of the stored list, in either check order |
| `AdminPanel.BatchConflictFree` | components/AdminPanel.tsx:364-383 | accepted courses stored under their final ids keep a conflict-free list conflict-free |
| `AdminPanel.ImportPreservesConflictFreedom` | components/AdminPanel.tsx:352-386 | a successful import keeps a conflict-free course list conflict-free |
| `AdminPanel.ScheduleRowAt` | components/AdminPanel.tsx:413-429 | row `j` of a course's rows is the row of its schedule `j` |
| `AdminPanel.PushScheduleRows` | components/AdminPanel.tsx:413-429 | the inner `forEach` appends one row per schedule of the course, in order |
| `AdminPanel.PushCourseRows` | components/AdminPanel.tsx:412-430 | the outer `forEach` appends the rows of every course, in list order |
| `AdminPanel.ExportCsv` | components/AdminPanel.tsx:403-430 | no rows exactly for an empty list; otherwise the first row is the header |
| `AdminPanel.HandleExport` | components/AdminPanel.tsx:403-430 | the export computes exactly `ExportCsv`: no rows for an empty list, else the header and the loop rows |
| `AdminPanel.CourseRowsLength` | components/AdminPanel.tsx:412-430 | the loops produce one row per (course, schedule) pair |
| `AdminPanel.CourseRowAt` | components/AdminPanel.tsx:412-430 | the row of schedule `j` of course `i` sits after the rows of the earlier courses and schedules |
| `AdminPanel.ExportShape` | components/AdminPanel.tsx:403-430 | the export fails exactly for an empty list; otherwise it has the header, which reads back as the column names, and one row per schedule |
| `AdminPanel.ExportRowsInListOrder` | components/AdminPanel.tsx:409-430 | the data rows follow the header in (course, schedule) list order |
| `AdminPanel.ExportHeaderReadsBack` | components/AdminPanel.tsx:409-410 | the header row reads back as the six column names |
| `AdminPanel.ExportRowReadsBack` | components/AdminPanel.tsx:414-427 | every data row reads back, with the comma-separated row reader, to its six values |
| `DataService.Records` | services/dataService.ts:59 | the collection filter keeps, in order, exactly the truthy object elements |
| `DataService.VacanciesOf` | services/dataService.ts:68 | a stored member of the enum is kept, and anything else becomes `available` |
| `DataService.SettingsOf` | services/dataService.ts:38-54 | `layoutOrder` is the default or a truthy value of length 4; each settings sub-object has at least every default key |
| `DataService.VideoUrlsOf` | services/dataService.ts:107-113 | every loaded URL is truthy, and a non-blank string when `videoUrls` is an array |
| `DataService.ToSchedules` | services/dataService.ts:81-89 | a non-array `schedules` becomes `[]` |
| `DataService.OpenEnrollmentsOf` | services/dataService.ts:57-70 | a non-array field gives the defaults; an array gives one record per kept element |
| `DataService.OngoingCoursesOf` | services/dataService.ts:73-91 | a non-array field gives the defaults; an array gives one course per kept element |
| `DataService.NewsItemsOf` | services/dataService.ts:94-104 | a non-array field gives the defaults; an array gives one item per kept element |
| `DataService.LoadData` | services/dataService.ts:19-131 | nothing stored, invalid JSON, null, an array or a primitive gives the default data |
| `DataService.ImportBackup` | services/dataService.ts:180-197 | a failed import leaves the store unchanged |
| `DataService.LoadUsers` | services/dataService.ts:201-219 | the stored users when they are a non-empty array, otherwise the default admin; never empty |
| `DataService.IdsKeptOrReplaced` | services/dataService.ts:61-98 | a truthy stored id is kept, stringified; a missing or falsy one gets the fresh id |
| `DataService.ScheduleDefaults` | services/dataService.ts:84-88 | the day defaults to 1 only for null or undefined (a stored number is kept); falsy times become "00:00"; non-empty string times are kept |
| `DataService.ExampleDayZeroKept` | services/dataService.ts:85 | day 0 is kept and a null day becomes 1 |
| `DataService.NonArraySchedulesDropped` | services/dataService.ts:81-89 | a course whose `schedules` is not an array gets none |
| `DataService.CollectionsFollowRecords` | services/dataService.ts:57-104 | each collection has one record per truthy object element, in order, each sanitised from that element |
| `DataService.VideoUrlsSanitised` | services/dataService.ts:107-113 | an array keeps exactly its non-blank strings in order; otherwise a truthy legacy `videoUrl` gives `[videoUrl]`, else the defaults |
| `DataService.LayoutOrderKeptIffLengthFour` | services/dataService.ts:41 | `layoutOrder` is kept exactly when truthy and of length 4, otherwise the default order |
| `DataService.ExampleStringLayoutOrder` | services/dataService.ts:41 | a four-character string is accepted as `layoutOrder` |
| `DataService.OverlayKeepsStoredFields` | services/dataService.ts:42-53 | the merge has the default and stored keys, keeps every stored field and takes the default for the rest |
| `DataService.StoredFooterFieldKept` | services/dataService.ts:42-45 | a stored footer field survives the merge whatever its name or type |
| `DataService.StoredFooterSettings` | services/dataService.ts:42-45 | a stored `footerSettings` is loaded over the footer defaults |
| `DataService.SettingsMergedIndependently` | services/dataService.ts:40-54 | each settings sub-object depends only on its own stored field |
| `DataService.OpenEnrollmentRoundTrip` | services/dataService.ts:60-69 | sanitising the JSON image of a canonical enrollment gives it back |
| `DataService.ScheduleRoundTrip` | services/dataService.ts:84-88 | sanitising the JSON image of a canonical schedule gives it back |
| `DataService.CourseRoundTrip` | services/dataService.ts:76-90 | sanitising the JSON image of a canonical course gives it back |
| `DataService.NewsItemRoundTrip` | services/dataService.ts:97-103 | sanitising the JSON image of a canonical news item gives it back |
| `DataService.OverlayOfFullMap` | services/dataService.ts:42-53 | overlaying a map that already has every default key gives that map |
| `DataService.SettingsRoundTrip` | services/dataService.ts:38-54 | sanitising the JSON image of canonical settings gives them back |
| `DataService.OpenEnrollmentsRoundTrip` | services/dataService.ts:57-70 | the enrollment collection round-trips whatever the id supply |
| `DataService.CoursesRoundTrip` | services/dataService.ts:73-91 | the course collection round-trips whatever the id supply |
| `DataService.NewsItemsRoundTrip` | services/dataService.ts:94-104 | the news collection round-trips whatever the id supply |
| `DataService.LoadEncodeRoundTrip` | services/dataService.ts:34-124 | loading the JSON image of canonical data gives the same data back |
| `DataService.IdOfEncodedRecord` | services/dataService.ts:61-98 | a record whose stored id is a non-empty string keeps it |
| `DataService.OpenEnrollmentIdsKept` | services/dataService.ts:61 | re-sanitising enrollments with non-empty ids keeps every id |
| `DataService.CourseIdsKept` | services/dataService.ts:77 | re-sanitising courses with non-empty ids keeps every id |
| `DataService.NewsItemIdsKept` | services/dataService.ts:98 | re-sanitising news items with non-empty ids keeps every id |
| `DataService.LoadEncodeCollections` | services/dataService.ts:57-104 | the loaded collections are the sanitised encoded collections |
| `DataService.ResanitisingKeepsIds` | services/dataService.ts:57-104 | a second load keeps every record and every id, provided no id is empty |
| `DataService.ExampleEmptyArrayIdKept` | services/dataService.ts:77 | a stored id `[]` is truthy, so it is kept, stringified to "" |
| `DataService.EmptyIdReplaced` | services/dataService.ts:77 | a course stored with id "" gets a fresh id on the next load |
| `DataService.ExampleEmptyArrayIdReplaced` | services/dataService.ts:77 | an id `[]` survives one load as "" and is replaced on the next |
| `DataService.SaveTakesTruthyFields` | services/dataService.ts:139-146 | each data field comes from the partial when truthy, otherwise from the current data |
| `DataService.MergeForSave` | services/dataService.ts:139-146 | the saved object has exactly the five data fields and `lastUpdate`, which is always the save time |
| `DataService.SaveData` | services/dataService.ts:134-160 | the blob written back has exactly the five data fields and `lastUpdate`, stamped with the save time |
| `DataService.MergeEmptyPartial` | services/dataService.ts:139-146 | an empty partial saves the current data, restamped |
| `DataService.MergeFullPartial` | services/dataService.ts:139-146 | a full partial replaces every data field |
| `DataService.SaveFullDataThenLoad` | services/dataService.ts:134-149 | saving canonical data in full and loading it gives that data with the save time |
| `DataService.SaveEmptyPartialThenLoad` | services/dataService.ts:134-149 | saving an empty partial keeps canonical current data; only `lastUpdate` moves |
| `DataService.ImportBackupOutcome` | services/dataService.ts:180-197 | success exactly for a non-null JSON value with truthy `settings` and array `openEnrollments`; then the file is saved as a partial, otherwise the store is kept |
| `OngoingCourses.CurrentShift` | components/OngoingCourses.tsx:8-13 | from 05:00 to 23:59 the hour's start lies in the numeric window of the shift chosen |
| `OngoingCourses.ShiftTimes` | components/OngoingCourses.tsx:15-19 | both bounds of every window are "HH:mm" times |
| `OngoingCourses.WindowsSpellBounds` | components/OngoingCourses.tsx:15-19 | every shift window spells its numeric bounds `100 * HH + mm` |
| `OngoingCourses.InWindowIsNumeric` | components/OngoingCourses.tsx:29-31 | on "HH:mm" times the string window test is the inclusive numeric test |
| `OngoingCourses.ShiftWindowHoldsClock` | components/OngoingCourses.tsx:8-19 | the current shift's window holds the current clock time exactly from 05:00 on |
| `OngoingCourses.FilterCoursesByShift` | components/OngoingCourses.tsx:21-34 | keeps, as a subsequence, exactly the courses with a schedule on the day starting inside the shift window |
| `OngoingCourses.ActiveIsNumeric` | components/OngoingCourses.tsx:27-33 | on "HH:mm" times a schedule is active exactly when its start lies inside the numeric window on that day |
| `OngoingCourses.FindActiveSchedule` | components/OngoingCourses.tsx:36-47 | a schedule found is one of the course's schedules and is active |
| `OngoingCourses.FindActiveScheduleSpec` | components/OngoingCourses.tsx:36-47 | a schedule is found exactly when one is active, and it is the first active one |
| `OngoingCourses.ActiveCourseHasSchedule` | components/OngoingCourses.tsx:36-47 | a course's active schedule exists exactly when the course passes the filter |
| `OngoingCourses.BlockOf` | components/OngoingCourses.tsx:74 | the block key is never empty (an empty block becomes 'A') |
| `OngoingCourses.GroupedNext` | components/OngoingCourses.tsx:73-78 | one more course is pushed onto its block's group, and a new block is appended to the key order |
| `OngoingCourses.GroupOfLast` | components/OngoingCourses.tsx:73-77 | the last course joins the group of its own block and leaves every other group as it was |
| `OngoingCourses.GroupIsBlockFilter` | components/OngoingCourses.tsx:73-78 | a block's group is exactly the courses of that block, in original order |
| `OngoingCourses.GroupKeyListed` | components/OngoingCourses.tsx:73-80 | a block has a group exactly when the key order lists it |
| `OngoingCourses.GroupKeysAreBlocks` | components/OngoingCourses.tsx:73-80 | the groups' keys are exactly the listed keys and exactly the blocks of the courses |
| `OngoingCourses.BlockOrderDistinct` | components/OngoingCourses.tsx:73-80 | the key order lists each block once |
| `OngoingCourses.GroupedByBlock` | components/OngoingCourses.tsx:73-80 | the grouping facts above together |
| `OngoingCourses.EveryCourseInOneGroup` | components/OngoingCourses.tsx:73-78 | every active course is in its block's group and in no other |
| `OngoingCourses.SortStrings` | components/OngoingCourses.tsx:80 | sorting is a permutation of the keys |
| `OngoingCourses.InsertKeepsSorted` | components/OngoingCourses.tsx:80 | inserting a new key into a strictly sorted list keeps it strictly sorted |
| `OngoingCourses.SortStringsSorted` | components/OngoingCourses.tsx:80 | sorting distinct keys gives a strictly ascending list |
| `OngoingCourses.BlockKeysSorted` | components/OngoingCourses.tsx:80 | the block keys are strictly ascending and are exactly the groups' keys |
| `OngoingCourses.GroupActiveCourses` | components/OngoingCourses.tsx:73-80 | the `reduce` and the key sort compute exactly `Grouped` and `BlockKeys` |
| `OngoingCourses.PushCourse` | components/OngoingCourses.tsx:73-77 | the `reduce` callback for one course performs one step of `Grouped` and of the block creation order |
| `OngoingCourses.ShiftBoard.constructor` | components/OngoingCourses.tsx:50-51 | the panel starts with the currently active courses and the first block |
| `OngoingCourses.ShiftBoard.Refresh` | components/OngoingCourses.tsx:53-64 | the minute timer stores the active courses and resets the carousel to 0 exactly when they changed |
| `OngoingCourses.ShiftBoard.Advance` | components/OngoingCourses.tsx:82-90 | with two blocks or more the index steps by `(prev + 1) % n` and stays in range; otherwise it is unchanged |
| `OngoingCourses.ShiftBoard.CurrentBlock` | components/OngoingCourses.tsx:103-105 | a block is shown exactly when some course is active, and it is one of the groups |
| `Mural.Spread` | components/Mural.tsx:53 | spreading an array copies its elements; a string gives one element per character |
| `Mural.DropOrder` | components/Mural.tsx:53-58 | the swap keeps the length and leaves every slot holding neither dragged id unchanged |
| `Mural.DropSwapsPresentIds` | components/Mural.tsx:52-58 | dropping a present id onto another swaps their positions and leaves every other position unchanged |
| `Mural.DropIsPermutation` | components/Mural.tsx:53-58 | the new order is a permutation of the old |
| `Mural.DropTwiceRestores` | components/Mural.tsx:52-58 | repeating the same drop on a duplicate-free order restores it |
| `Mural.DropOfAbsentId` | components/Mural.tsx:54-58 | a dragged id missing from the order puts `undefined` into the target's slot |
| `Mural.ValidLayoutOrder` | components/Mural.tsx:75-77 | the stored order when its length is 4, otherwise the default order |
| `Mural.DropKeepsLayoutValid` | components/Mural.tsx:53-77 | a swap in a four-panel order is displayed as stored |
| `Mural.Board.constructor` | components/Mural.tsx:34-36 | both drag refs and the highlight start cleared |
| `Mural.Board.DragStart` | components/Mural.tsx:38-40 | sets the dragged id and nothing else |
| `Mural.Board.DragEnter` | components/Mural.tsx:42-45 | sets the drop target and the highlight and nothing else |
| `Mural.Board.DragLeave` | components/Mural.tsx:47-49 | clears the highlight only |
| `Mural.Board.HandleDrop` | components/Mural.tsx:51-65 | with both refs set and different, only `layoutOrder` changes, to the in-place swap; otherwise the settings are unchanged; all refs are cleared in every case |

## Left out

- Browser storage and events are not modelled: `localStorage` reads and
  writes, removing corrupt data, `window.dispatchEvent` and the quota alert.
  The stored blob is an input (`None` when absent or not JSON), and the saved
  blob is an output.
- `JSON.parse` and `JSON.stringify` are not modelled as text. A parsed value
  is a `JsValue.Value`, and `DataService.Encode` is the JSON image of
  canonical data.
- Files and downloads are not modelled: `file.text()`, `Blob`, the byte-order
  mark, `URL.createObjectURL`, anchor clicks and the template download. The
  import takes the file's text, and the export returns its rows.
- Nondeterminism is passed in as parameters: `crypto.randomUUID`, the
  import's `temp-${Math.random()}` ids, `Date.now` and `new Date()` (the hour
  and the weekday).
- JavaScript numbers are integers here:
  - `workload` and `dayOfWeek` have no fractions and no NaN;
  - `Number(...)` reads only numbers, booleans, null and digit strings, and
    every other value is 0;
  - `parseInt` gives `None` for NaN.
- Strings are sequences of Unicode scalar values. JavaScript compares UTF-16
  code units, which differs only beyond the Basic Multilingual Plane.
  `toLowerCase` covers ASCII and Latin-1 capitals only.
- `String(...)` of an object is "[object Object]"; objects with their own
  `toString` or `valueOf` are not modelled.
- Toasts, the modals, React rendering and the timers that call `Refresh` and
  `Advance` are not modelled. The toast texts of the import and the parser
  are kept as `CsvError` and `ImportConflict` values.
- `handleScheduleChange` (components/AdminPanel.tsx:325-332) is not modelled.
  It writes one field of one schedule, and the code's dynamic field key
  lets any value type in.
- `OngoingCourses.ShiftBoard.Refresh` compares the lists by value. The code
  compares `JSON.stringify` texts, which agree on these records.
- `Mural.Board.HandleDrop` requires an array or string `layoutOrder` when
  the drop applies. Spreading any other value throws a `TypeError` in the
  code, and the model does not represent that exception.
- The user records of `loadUsers` are kept as raw values; their fields are
  not checked, and neither are they in the code.
- `saveUsers`, `exportBackup`, the security, AI-client, login, video,
  service-worker and presentation-only components are not part of this
  model.
- OngoingCourses.GroupActiveCourses: the grouping object is a plain `{}`.
  A block named after a member of `Object.prototype` (`constructor`,
  `toString`, `valueOf`, `hasOwnProperty`, `__proto__`, ...) finds that
  inherited member, so the code skips creating the group, `push` throws a
  `TypeError` and the panel fails to render. The model groups such a block
  like any other, as `Grouped`, `BlockKeys`, `ShiftBoard.CurrentBlock` do.
  The CSV import takes the block text as it stands.
- CsvQuoting.ReadRecordOfQuotedRow: the round trip is per row. A value
  holding a line break is not quoted (components/AdminPanel.tsx:423), and
  the rows are joined with "\n" (components/AdminPanel.tsx:432), so such a
  value does not survive the file as a whole
  (`CsvQuoting.ExampleLineBreakNotQuoted`). Joining the rows into the file is
  not modelled.
  `ReadRecord` reads one line of comma-separated fields; unlike the
  TEXTDATA of RFC 4180 it accepts a carriage return or line feed inside an
  unquoted field.
- DataService.ResanitisingKeepsIds: stated only when no id is empty. A
  stored id `[]` is kept as "" and replaced on the next load
  (`DataService.ExampleEmptyArrayIdReplaced`), so the unconditional claim
  is false.
- DataService.LoadEncodeRoundTrip: stated for canonical data only:
  - every record has a non-empty id;
  - no field holds a falsy value the sanitiser would replace by its default;
  - video URLs are non-blank strings;
  - the settings already hold every default field.

  Other data comes back with defaults filled in.
- OngoingCourses.ShiftWindowHoldsClock: holds from 05:00 on only. Before
  05:00 the code picks the night shift, whose window (18:00-23:59) does not
  hold the clock time. Night courses are therefore shown after midnight.
