# Church service attendance back end, modelled in Dafny

The system is the back end of a church service's attendance book. Its records are:

- **Families** (أسر): the service groups.
- **Servants** (خدام): users with a role group, usually `'Khadem'`.
- **Serviced people** (مخدومين): each linked to the servants who visit them.

A family records the servants' attendance of each Friday session. A servant records the
attendance of each serviced person. Monthly forms add the meeting, lesson, communion,
confession and visit counts.

Reports turn these counts into percentages:

- the attendance dimensions of a window of months (a quarter, the TEMP window or one month),
  divided by the window's Fridays;
- the visits, divided by the servant's serviced count times the Fridays.

Two spreadsheet imports fill the servant and serviced tables. The back end also provides a
login, administration routes for users and families, and the transfer of a serviced person
to another servant.

The model takes the database as a value, `Store.Db`. It holds:

- the families, users and serviced people as sequences in insertion order;
- the link tables as sets of pairs;
- the upserted tables (`servant_manual_counts`, `monthly_attendance`, `servant_attendance`,
  `family_attendance_summary`, `serviced_attendance`) as maps keyed by their `ON CONFLICT`
  keys;
- the three serial counters.

Other parts are modelled as follows:

- A read query that only aggregates is a parameter, a function from the query's arguments to
  its rows.
- A route is a function or a method.
  - It returns an `Http.Reply`: success with a status and a body, or failure with a status
    and a reason.
  - It returns the new store when it writes.
- A route whose writes run in one transaction leaves the store unchanged on every failure.
- Percentages are exact ratios (`Reports.Pct`), not formatted floats. The `'0%'` label is
  its own case.
- `getFridaysCount` keeps its day-by-day loop (`Helpers.FridaysCount`). The loop is proved to
  count the Fridays of a Gregorian calendar (`Calendar`), which replaces JavaScript's `Date`.
- Loops that fill dictionaries are methods with invariants:
  - the TEMP merge;
  - the per-family and per-serviced grouping;
  - the import loops;
  - the attendance upserts.

  Each method is proved equal to a function, and the properties are lemmas about that
  function.

The code divides visits by the serviced count times the Fridays of the window (servant
performance: × 12). It does not use a number of elapsed months. It divides confession by the
window's Fridays, like the other dimensions.

Three places where the code does not do what it evidently means are listed under "Findings".
Each is modelled twice: once as written, with the input that shows the discrepancy, and once
corrected.

Files, one module each:

- Shared: `wrappers.dfy`, `http.dfy`, `jsstring.dfy` (JavaScript string operations),
  `jsobject.dfy` (integer-keyed object order), `sheet.dfy`, `calendar.dfy`, `store.dfy` and
  `helpers.dfy`.
- Reports and grouping: `reports.dfy`, `quarter_report.dfy`, `month_report.dfy`,
  `servant_performance.dfy`, `grouping.dfy`, `attendance_summary.dfy` and
  `monthly_serviced.dfy`.
- Login and imports: `login.dfy`, `import_servants.dfy` and `import_serviced.dfy`.
- Write routes: `monthly_attendance.dfy`, `attendance.dfy`, `serviced_routes.dfy`,
  `users.dfy`, `families.dfy` and `transfer.dfy`.

## Model

| member | source | states |
|---|---|---|
| Helpers.NormalizeUsername | helpers.js:3-12 | A missing or empty input gives `""`. The result has no white space and none of the folded letters (alef forms, alef maksura, teh marbuta, hamza carriers). It is never longer than the input. |
| Helpers.NormalizeUsernameAsMap | helpers.js:5-11 | For a non-empty input the result is the input with all white space removed and each remaining letter folded, position by position. |
| Helpers.NormalizeUsernameIdempotent | helpers.js:3-12 | Normalising a normalised username changes nothing. |
| Helpers.UsernameLetter | helpers.js:8-11 | The four username replacements as one character map. Its result is never a folded letter, it fixes every other letter, and it maps white space to white space. |
| Helpers.NormalizeFamilyName | helpers.js:14-22 | A missing or empty input gives `""`. The result is trimmed, every white-space run in it is one `' '`, it holds no folded letter, and it is never longer than the input. |
| Helpers.NormalizeFamilyNameIdempotent | helpers.js:14-22 | Normalising a normalised family name changes nothing. |
| Helpers.FamilyNameFixedPoint | helpers.js:14-22 | A trimmed, single-spaced name without folded letters is its own normal form. |
| Helpers.NormalizeFamilyNameKeepsLetters | helpers.js:19-21 | Apart from white space, the result is the input's characters, each folded (أإآ→ا, ى→ي, ة→ه) and none otherwise changed. |
| Helpers.NormalizeFamilyNameTrims | helpers.js:15-17 | A name normalises like its trimmed form. |
| Helpers.NormalizeFamilyNameWord | helpers.js:19-21 | A name without white space is only folded, letter by letter. |
| Helpers.NormalizeFamilyNameJoin | helpers.js:16-21 | Each white-space run between two trimmed parts becomes exactly one space, and each part is normalised on its own. With the two rows above, this fixes the normal form of every name: its words, folded, joined by single spaces. |
| JsString.CollapseJoin | helpers.js:18 | `replace(/\s+/g, ' ')` turns a white-space run between two strings, with no white space at the join, into exactly one space, and collapses each side on its own. |
| Helpers.FamilyLetter | helpers.js:19-21 | The three family-name replacements as one character map. Its result is never a folded letter, and it fixes every other character. |
| Helpers.FridaysCount | helpers.js:24-32 | The day-by-day loop counts the days of the month whose weekday is Friday. That is 4 or 5 for a month 1..12, and 0 for any other month number. |
| Calendar.DaysInMonth | helpers.js:26-27 | A month has 28 to 31 days, and February has 29 exactly in a leap year. |
| Calendar.FridaysInMonthBounds | helpers.js:24-32 | Every month of every year has four or five Fridays. |
| Calendar.OneFridayPerWeek | helpers.js:27-29 | Any seven consecutive days of a month hold exactly one Friday. |
| Calendar.ServiceYearFridays | helpers.js:24-32 | The Friday counts of October 2025 to September 2026, the months the reports use: 5, 4, 4, 5, 4, 4, 4, 5, 4, 5, 4, 4. |
| Helpers.ServicedCountForServant | helpers.js:34-64 | The manual count when one exists. Otherwise the number of distinct existing serviced people linked to the servant, never negative. |
| Helpers.ComputedCountBounds | helpers.js:50-58 | Without a manual count, the result is at most the servant's number of link rows, and 0 when the servant has none. |
| Helpers.NewLinkAddsOne | helpers.js:50-58 | A new link to an existing serviced person raises the computed count by exactly one. |
| Helpers.FindUserFirst | routes/login.js:43-45 | The user found has a normalised name equal to the one searched for, and no earlier user does. |
| Helpers.FindUserAtMost | routes/login.js:43-45 | Any user whose name normalises to the searched name is at or after the user found. |
| Reports.AttendancePct | routes/monthly-reports.js:53-56 | `'0%'` exactly when there are no Fridays. Otherwise the ratio of the sum, with a missing sum as 0, to the Fridays. |
| Reports.VisitsPct | routes/monthly-reports.js:57-59 | A ratio exactly when the serviced count and the Fridays are both positive. The ratio is visits over serviced count × Fridays, so its denominator is at least each factor. |
| Reports.FormatRow | routes/monthly-reports-quarter.js:143-152 | An entry keeps the username. It takes the four attendance ratios of the row's sums and the visits ratio built on the helper's serviced count of that servant. |
| Reports.FormatRows | routes/monthly-reports-quarter.js:141-153 | One entry per row, in row order. |
| Reports.VisitsUseManualCount | routes/monthly-reports-quarter.js:142 | The visits entry of a servant with a manual count does not depend on the links. |
| QuarterReport.QuarterRoute | routes/monthly-reports-quarter.js:4-161 | A non-GET request fails with 405. Any other quarter fails without computing anything. TEMP formats the merged rows of both years over the five months' Fridays. Q1..Q4 format the query's rows over the window's Fridays. |
| QuarterReport.AddFridays | routes/monthly-reports-quarter.js:136-139 | The accumulation loop adds the Friday count of each month of the list to its start value. |
| QuarterReport.CountTempFridays | routes/monthly-reports-quarter.js:78-80 | The two `forEach` loops over the TEMP months produce the window's Friday count. |
| QuarterReport.TempFridays | routes/monthly-reports-quarter.js:78-80 | The TEMP denominator, which sums October–December 2025 and January–February 2026, is 22. |
| QuarterReport.Q1Fridays | routes/monthly-reports-quarter.js:14 | Q1 has 13 Fridays. |
| QuarterReport.Q2Fridays | routes/monthly-reports-quarter.js:15 | Q2 has 13 Fridays. |
| QuarterReport.Q3Fridays | routes/monthly-reports-quarter.js:16 | Q3 has 13 Fridays. |
| QuarterReport.Q4Fridays | routes/monthly-reports-quarter.js:17 | Q4 has 13 Fridays. |
| QuarterReport.WindowsHaveFridays | routes/monthly-reports-quarter.js:136-139 | Every valid window has a positive denominator, so no valid window reports `'0%'` merely for lack of Fridays. |
| QuarterReport.MergeYears | routes/monthly-reports-quarter.js:61-75 | The merge loop over the 2025 rows, then the 2026 rows, followed by `Object.values`, gives the merged rows of the two lists. |
| QuarterReport.MergedShape | routes/monthly-reports-quarter.js:61-75 | The merged rows come in strictly ascending `user_id` order, one per id that occurs in either year and no other. Each row's six sums are that servant's 2025 totals plus its 2026 totals, with nulls as 0. |
| QuarterReport.MergedDictSums | routes/monthly-reports-quarter.js:62-73 | Each dictionary entry has its key as id and the username of the servant's first row, and its sums are the servant's totals over all rows. |
| QuarterReport.TallyForAppend | routes/monthly-reports-quarter.js:62 | A servant's totals over two concatenated row lists are the sums of the totals over each. |
| QuarterReport.TallyForAbsent | routes/monthly-reports-quarter.js:66-71 | A servant without rows has zero totals. |
| QuarterReport.MergeOfOneRow | routes/monthly-reports-quarter.js:63-64 | A servant with a single row keeps that row unchanged. |
| MonthReport.MonthStr | routes/monthly-reports.js:11 | The month is left-padded to at least two characters; a missing month becomes `"00"`. |
| MonthReport.MonthFridays | routes/monthly-reports.js:46 | The denominator is the Friday count of the parsed month in the report year. A month string that does not parse gives 0. |
| JsString.ParseIntNaN | routes/monthly-reports.js:30 | `parseInt` without a radix gives `NaN` exactly when no digit of the chosen base (16 after a `0x`/`0X` prefix, 10 otherwise) follows the white space and the sign. |
| JsString.ParseHexDigit | routes/monthly-reports.js:30 | A `0x` prefix followed by one hex digit is read as that digit's value in base 16. |
| JsString.ParseHexPrefixOnly | routes/monthly-reports.js:30 | `"0x"` alone is `NaN`. |
| MonthReport.HexMonth | routes/monthly-reports.js:11-46 | A month `"0x"` followed by one hex digit is kept unpadded, has year 2026, is read in base 16, and gets the Fridays of that month number. |
| MonthReport.HexJanuary | routes/monthly-reports.js:11-46 | The month `"0x1"` is read as 1 and so gets January 2026's 5 Fridays. |
| MonthReport.TwoDigitMonth | routes/monthly-reports.js:11-13 | A two-digit month is used as it is. Its year is 2025 exactly for months 10..12, and its denominator is that month's Fridays. |
| MonthReport.OneDigitMonth | routes/monthly-reports.js:11 | A one-digit month is padded with a zero and gives the same denominator as the padded form. |
| MonthReport.ServiceYearMonths | routes/monthly-reports.js:46 | October and January (`"1"`) each have five Fridays. |
| MonthReport.MissingMonth | routes/monthly-reports.js:11-13 | A missing month reads as month 0 of 2026. Its denominator is 0, and every percentage of the report is `'0%'`. |
| MonthReport.MonthRoute | routes/monthly-reports.js:4-69 | A non-GET request fails with 405. Otherwise the reply is success with one entry per query row, in order, formatted over that month's Fridays. An empty result gives an empty report. |
| ServantPerformance.ServantsWhereMembers | routes/reports-servant-performance.js:17-33 | The servants query lists exactly the selected users, each joined with its family name. |
| ServantPerformance.ServantsOfFamily | routes/reports-servant-performance.js:21-28 | The corrected query lists exactly the users of role `'Khadem'` or `'AmeenSekra'` in the given family, or in every family when none is given. |
| ServantPerformance.AsWrittenListsEveryKhadem | routes/reports-servant-performance.js:21-28 | As written, every `'Khadem'` is listed whatever family is asked for. |
| ServantPerformance.FamilyFilterMissesKhadem | routes/reports-servant-performance.js:25-28 | A `'Khadem'` of family 2 appears in the as-written report of family 1, and not in the corrected one. |
| ServantPerformance.PerfRowOf | routes/reports-servant-performance.js:51-73 | The username. The family name, or `'غير مسؤول'` when it is missing. Each attendance count over 12, with a missing count as 0. The visits over 12 × the serviced count when that count is positive, and 0 otherwise. |
| ServantPerformance.ManualCountSetsVisits | routes/reports-servant-performance.js:58-63 | A positive manual count is the visits factor, whatever the links are. |
| ServantPerformance.CorrectedWithinAsWritten | routes/reports-servant-performance.js:21-28 | Every servant the corrected query lists is also listed by the query as written. |
| ServantPerformance.BuildReport | routes/reports-servant-performance.js:33-74 | One entry per servant of the list, in its order, each built from that servant's sums. |
| ServantPerformance.ServantPerformanceRoute | routes/reports-servant-performance.js:4-82 | A non-GET request fails with 405. Otherwise the reply is one entry per row of the servants query as written, in the query's order, so a family filter still lists every `'Khadem'`. |
| ServantPerformance.ServantPerformanceRouteCorrected | routes/reports-servant-performance.js:4-82 | The same route over the corrected query: one entry per servant of the family asked for, of either role. |
| Grouping.GroupRows | routes/monthly-attendance-summary.js:31-45 | The grouping loop, followed by `Object.values`, gives the grouping of the rows. |
| Grouping.Visit | routes/monthly-serviced.js:58-72 | One call of the `forEach` callback creates the entry when it is missing and pushes the row's item, which is one step of building the dictionary. A new id goes into its place in the key list. |
| Grouping.GroupedShape | routes/monthly-attendance-summary.js:31-45 | One entry per distinct id, in ascending id order. Each entry has the header of the id's first row, and the items of the id's rows in row order. |
| Grouping.KeysOfMembers | routes/monthly-serviced.js:58-66 | An id is a key exactly when some row has it. |
| Grouping.TotalItems | routes/monthly-serviced.js:58-73 | The items of all entries together are as many as the rows that carry an item. |
| Grouping.ItemsBound | routes/monthly-serviced.js:67-72 | No entry has more items than the rows that carry one. |
| AttendanceSummary.SummaryRoute | routes/monthly-attendance-summary.js:3-51 | A non-GET request fails with 405, and a missing month with 400, both before any query. Otherwise the reply is the grouping of the query's rows, queried with the month's year (2025 exactly for `"10"`, `"11"` or `"12"`, unpadded). |
| AttendanceSummary.Project | routes/monthly-attendance-summary.js:39-42 | Every row becomes one record of its family, with its date, `submitted` exactly when its count is positive. |
| AttendanceSummary.CountAll | routes/monthly-attendance-summary.js:39-42 | Every row contributes exactly one record. |
| AttendanceSummary.FamilyEntries | routes/monthly-attendance-summary.js:32-43 | Every row's family has an entry, and the row's record is in that entry. |
| MonthlyServiced.LocalNormalize | routes/monthly-serviced.js:6-12 | The route's own normaliser gives a trimmed result without folded letters, never longer than the input. |
| MonthlyServiced.LocalNormalizeAgrees | routes/monthly-serviced.js:6-12 | On a single-spaced name it agrees with the shared family-name normaliser. |
| MonthlyServiced.LocalNormalizeIdempotent | routes/monthly-serviced.js:6-12 | Normalising twice is normalising once. |
| MonthlyServiced.FilterMembers | routes/monthly-serviced.js:51-55 | The filter keeps exactly the rows without a class or family name, and the rows whose two normalised, lower-cased names differ, in order. |
| MonthlyServiced.AsWrittenKeepsEveryRow | routes/monthly-serviced.js:51-55 | When no row has a family name, as the query guarantees, the filter keeps every row. |
| MonthlyServiced.ClassNamedAfterFamilyStays | routes/monthly-serviced.js:52 | A class named like its family is kept by the route as written. |
| MonthlyServiced.FilterDropsFamilyClass | routes/monthly-serviced.js:51-55 | With the family name selected, a row with a class name is dropped exactly when that name normalises like the family's. |
| MonthlyServiced.Project | routes/monthly-serviced.js:58-72 | Every row opens its serviced person's entry with the row's names. It adds a session exactly when the row has a date. |
| MonthlyServiced.MonthlyServicedRoute | routes/monthly-serviced.js:17-83 | The reply is the grouping of the filtered query rows. |
| MonthlyServiced.KeptRowListed | routes/monthly-serviced.js:57-75 | Every kept row's serviced person has an entry. The entry holds the row's session when the row has a date. |
| MonthlyServiced.SessionsFromKeptRows | routes/monthly-serviced.js:67-72 | Every listed session comes from a kept, dated row of the same serviced person. |
| Login.DigitLetter | routes/login.js:17-27 | Each Arabic-Indic digit becomes its ASCII digit, and every other character is unchanged. |
| Login.CleanPassword | routes/login.js:16-29 | A missing or empty password is left as it is. Any other password has its Arabic-Indic digits replaced and is then trimmed, so no Arabic-Indic digit remains. |
| Login.ArabicDigitsAreAscii | routes/login.js:16-29 | A password typed with Arabic-Indic digits cleans to the same password as one typed with ASCII digits. |
| Login.LoginRoute | routes/login.js:5-11 | A non-POST request fails with 405. |
| Login.LoginSuccess | routes/login.js:31-71 | A POST login succeeds exactly when a user's normalised name matches and the cleaned password matches the first such user's hash. The reply is that user's id, role, family id, family name and username. |
| Login.SameReplyForUnknownUserAndWrongPassword | routes/login.js:47-61 | An unknown user and a wrong password get the same 401 reply. |
| Login.SpellingsAlike | routes/login.js:31-45 | Two typed usernames that normalise alike get the same reply. |
| Login.NormalisedNameFinds | routes/login.js:43-45 | A stored name, typed in its normal form, finds a user at or before the stored one. |
| Sheet.Cell | routes/import-serviced.js:57-59 | Reading a key of a sheet row gives nothing exactly when no column has that header. Otherwise the value is the cell of a column with that header and no later column has it, since a later assignment to a key overwrites an earlier one. |
| Sheet.CellIsLast | routes/import-serviced.js:57-59 | The last column with a header is the one that reading that header gives. |
| ImportServants.ImportServantsRoute | routes/import-servants.js:8-116 | 405 for a non-POST request; 400 for a missing file, an empty sheet or no valid rows. Every failure leaves the store unchanged. Success imports the valid rows in order. |
| ImportServants.ValidRows | routes/import-servants.js:43-46 | The valid rows are those whose username, password and family name cells are all non-empty, in order. |
| ImportServants.ValidRowsMembers | routes/import-servants.js:43-46 | A row is valid exactly when it is a data row with all three cells. |
| ImportServants.Role | routes/import-servants.js:64 | A missing role defaults to `'Khadem'`. |
| ImportServants.DefaultRole | routes/import-servants.js:62-92 | A new servant without a role column becomes a `'Khadem'` of the family the record names. |
| ImportServants.ImportRecord | routes/import-servants.js:61-93 | The loop body inserts the family if it is absent, then the user if the username is absent, and counts a user it added. |
| ImportServants.InsertServant | routes/import-servants.js:82-92 | `ON CONFLICT (username) DO NOTHING`: the counter rises by one exactly when a row is added. |
| ImportServants.StepGrows | routes/import-servants.js:68-92 | One record adds at most one user and counts exactly the users it adds. |
| ImportServants.ImportGrows | routes/import-servants.js:56-93 | The count is the number of users added, and at most the number of valid records. |
| ImportServants.ImportKeepsValid | routes/import-servants.js:56-93 | The import keeps ids distinct, usernames unique and family names unique. |
| ImportServants.EveryUsernameTaken | routes/import-servants.js:82-88 | After the import every record's username is taken. |
| ImportServiced.Clean | routes/import-serviced.js:52-53 | A missing value becomes `""`. Otherwise the value is trimmed, and every white-space run in it is one space. |
| ImportServiced.CleanIdempotent | routes/import-serviced.js:52-53 | Cleaning twice is cleaning once. |
| ImportServiced.CleanRow | routes/import-serviced.js:55-61 | Each header is trimmed and lower-cased and each cell cleaned, column by column. |
| ImportServiced.CleanRowLastWins | routes/import-serviced.js:55-61 | When several headers normalise to one key, the cleaned row's key holds the cleaned cell of the last such column. |
| ImportServiced.ValidRecordsMembers | routes/import-serviced.js:63-66 | The valid records are exactly the cleaned data rows that have all four required fields non-empty. |
| ImportServiced.ImportServicedRoute | routes/import-serviced.js:7-177 | 405 for a non-POST request; 400 for a missing file, an empty sheet or no valid records. Every failure leaves the store unchanged. Success imports the valid records in order. |
| ImportServiced.ImportRecord | routes/import-serviced.js:82-149 | The loop body for one record: family, servant lookup, serviced person, link. |
| ImportServiced.AddServiced | routes/import-serviced.js:116-136 | The serviced person is found by name or added. The store then has a row of that name with the returned id, and a row is added exactly when none had the name. |
| ImportServiced.ImportRecords | routes/import-serviced.js:76-151 | The loop over the valid records. |
| ImportServiced.ImportGrows | routes/import-serviced.js:117-148 | Each of the two counters is at most the number of valid records. They count exactly the serviced rows and the link rows added. |
| ImportServiced.ImportKeepsValid | routes/import-serviced.js:82-149 | The import keeps the store well formed. |
| ImportServiced.StepLinks | routes/import-serviced.js:104-148 | A record whose servant is found leaves that servant linked to the serviced person of the record's name. |
| ImportServiced.EveryKnownServantLinked | routes/import-serviced.js:82-149 | After the import, every record with a known servant has that servant linked to the record's serviced person. |
| MonthlyAttendance.ValuesOf | routes/monthly-attendance.js:35-40 | The four flags are stored as 1 when truthy and 0 otherwise. The two serviced counts default to 0 only when they are missing. |
| MonthlyAttendance.MonthlyAttendanceRoute | routes/monthly-attendance.js:3-55 | A non-POST request fails with 405. A missing date or family, or records that are not an array, fail. Every failure leaves the store unchanged. Success stores the upserts of all records. |
| MonthlyAttendance.SavedLookup | routes/monthly-attendance.js:19-42 | After the upserts a key is present exactly when it was before or a record names it. It holds the values of the last record under it, and it is unchanged when no record names it. |
| MonthlyAttendance.NewKeysOfRequest | routes/monthly-attendance.js:21-30 | Every new key belongs to the request's family and date and to a user of some record. |
| MonthlyAttendance.ResubmitIdempotent | routes/monthly-attendance.js:19-42 | Submitting the same records twice is submitting them once. |
| Attendance.PostCheck | routes/attendance.js:103-112 | 400 for a missing date, records, recorder or family, or a null attendee count (a count of 0 is accepted). 400 for records that are not a non-empty array. The request passes otherwise. |
| Attendance.PostAttendance | routes/attendance.js:100-160 | A refused request leaves the store unchanged. A passed one upserts every record, upserts the family's summary and reports the number of records. |
| Attendance.MarkedLookup | routes/attendance.js:119-134 | After the upserts a key is present exactly when it was before or a record names it. The first recording's family is kept. A new key gets the request's family. An unnamed key is unchanged. |
| Attendance.LastRecordWins | routes/attendance.js:122-132 | A servant's last record decides the status, reason and apology. The request decides the recorder. |
| Attendance.MarksOf | routes/attendance.js:70-75 | The marks of a family and date are exactly the stored rows with that date and family. |
| Attendance.GetAttendance | routes/attendance.js:63-94 | A missing date or family fails. Otherwise the reply is the family's marks of the date, and the summary exactly when one is stored. |
| Attendance.ServantsOf | routes/attendance.js:9-30 | A missing family fails with 400. Otherwise the reply is exactly the family's users that are not admins. |
| Attendance.PostThenGet | routes/attendance.js:100-145 | After a submission, reading back the family and date lists every newly recorded servant and returns the posted summary. |
| ServicedRoutes.Classes | routes/serviced.js:8-28 | The class names are exactly those of the family's serviced people. |
| ServicedRoutes.ListClass | routes/serviced.js:33-72 | 400 unless family, class and date are all given. The family is a path segment, so a family id of 0 counts as given. Otherwise the reply is exactly the serviced people of that family and class, each with the status recorded for the date. |
| ServicedRoutes.FindOrAdd | routes/serviced.js:115-131 | The insert fails exactly when no row has the (name, family, class) triple but a row has the name: the `serviced_name` key is broken, and it is not the `ON CONFLICT` target. Otherwise a serviced row with the trimmed name, the family and the trimmed class exists afterwards under the returned id. |
| ServicedRoutes.FindOrAddFails | routes/serviced.js:115-121 | In a well-formed store, the insert fails exactly when a row holds the name under another family or another class, as the import's classless rows do. |
| ServicedRoutes.AddServiced | routes/serviced.js:103-150 | 400 unless all four fields are given, with the store unchanged. A failed insert is rolled back and gives 500, with the store unchanged. Otherwise the serviced person is found or added and linked to the servant. |
| ServicedRoutes.AddTwiceIsAddOnce | routes/serviced.js:115-138 | When an add succeeds, adding the same serviced person again gives the same store and id. |
| ServicedRoutes.FirstTripleOfAdd | routes/serviced.js:123-131 | After the find-or-add, the first row of the triple is the one returned. |
| ServicedRoutes.AddKeepsValid | routes/serviced.js:115-121 | A successful find-or-add keeps the store well formed, including the unique `serviced_name`. |
| ServicedRoutes.DeleteServiced | routes/serviced.js:155-177 | Removes the serviced person's attendance rows, link rows and row. |
| ServicedRoutes.DeleteRemovesOnlyTheId | routes/serviced.js:163-165 | After the delete nothing in the three tables refers to the id. Every other row stays, and the other tables are unchanged. |
| ServicedRoutes.RecordAttendance | routes/serviced.js:183-225 | 400 for a missing date, records or recorder, with the store unchanged. Otherwise every record is upserted in order. |
| ServicedRoutes.RecordedUnnamed | routes/serviced.js:198-206 | A row the request does not name is present and unchanged exactly as before. |
| ServicedRoutes.RecordedLast | routes/serviced.js:198-206 | A serviced person's last record decides its status, and the request decides the recorder. |
| ServicedRoutes.RecordThenList | routes/serviced.js:45-56 | After recording a session, the class list of that date shows each recorded person's status from their last record. |
| Users.StoredFamily | routes/users.js:23 | A missing or zero family is stored as `NULL`; any other family is stored as given. |
| Users.AddUser | routes/users.js:9-37 | 400 when the normalised username, the password or the role is missing. 409 when the normalised username is taken. Both leave the store unchanged. Otherwise 201 with the new id and the user appended. |
| Users.AddKeepsValid | routes/users.js:17-28 | A successful add keeps ids distinct and usernames unique. |
| Users.SecondSpellingRefused | routes/users.js:10-33 | Once one spelling is added, a second spelling that normalises alike is refused with 409. |
| Users.ListedCount | routes/users.js:53 | The manual count when there is one. Otherwise the number of the user's link rows. |
| Users.GetUsers | routes/users.js:41-89 | Exactly one row per selected user, carrying that user's id, name, role, family, family name and listed count. |
| Users.ListedRowsOfFamily | routes/users.js:67-70 | With a family filter every row is of that family, carries its name and the listed-count rule, and names an existing user. |
| Users.ListedCountIsHelperCount | routes/users.js:53 | When every link row names an existing serviced person, the listed count equals the count the reports use. |
| Users.DeleteUser | routes/users.js:93-117 | 400 without an id. 403 for user 1. 404 when no user has the id. Each failure leaves the store unchanged. Otherwise the user is removed. |
| Users.DeleteRemovesTheUser | routes/users.js:105-106 | The delete removes exactly the users with the id. |
| Users.BulkDeleteUsers | routes/users.js:120-141 | A failure when nothing is selected or only user 1, with nothing deleted. Otherwise the listed users other than user 1 are removed, and the reply counts the removed rows. |
| Users.BulkDeleteRemovesListed | routes/users.js:127-135 | A user survives the bulk delete exactly when it is not listed, or is user 1. |
| Users.UsersRoute | routes/users.js:5-148 | 405 for any other method. Every failure leaves the store unchanged. GET never changes it. Each success replies with its own handler's body. |
| Families.AddFamily | routes/families.js:7-30 | 400 without a name. 409 when a family has the name. Both leave the store unchanged. Otherwise 201 with the new id, and the family appended under the name as given. |
| Families.AddKeepsValid | routes/families.js:15-16 | A successful add keeps ids and names unique, and the new name finds the new id. |
| Families.GetFamilies | routes/families.js:33-42 | Exactly the families. |
| Families.RenameFamily | routes/families.js:45-70 | 400 without an id or a name. 404 when no family has the id. 500 when another family has the name. Each failure leaves the store unchanged. Otherwise the family is renamed. |
| Families.RenameChangesOnlyThatName | routes/families.js:58-59 | Renaming changes that family's name and nothing else, and keeps the table well formed. |
| Families.RenamedIsFound | routes/families.js:58-59 | The new name finds the renamed family. |
| Families.DeleteFamily | routes/families.js:73-93 | 400 without an id. 404 when no family has the id. Each failure leaves the store unchanged. Otherwise the family is removed. |
| Families.DeleteRemovesTheFamily | routes/families.js:81-82 | The delete removes exactly the families with the id. |
| Families.BulkDeleteFamilies | routes/families.js:96-118 | A failure when nothing is selected or only family 1, with nothing deleted. Otherwise the listed families other than family 1 are removed, and the reply counts the removed rows. |
| Families.BulkDeleteRemovesListed | routes/families.js:103-111 | A family survives the bulk delete exactly when it is not listed, or is family 1. |
| Families.FamiliesRoute | routes/families.js:3-125 | 405 for any other method. Every failure leaves the store unchanged. GET never changes it, and a rename keeps the number of families. |
| ServicedTransfer.CheckTransfer | routes/serviced-transfer.js:9-34 | Refused for missing data exactly when an id is missing. Refused for the servant exactly when the new servant is not a `'Khadem'` user. Refused for the class exactly when the serviced person has no class link. Otherwise the transfer goes ahead with the new servant's family. |
| ServicedTransfer.ServantFamily | routes/serviced-transfer.js:15-19 | The family is that of a `'Khadem'` user with the new servant's id. |
| ServicedTransfer.TransferAsWritten | routes/serviced-transfer.js:6-63 | A refused check changes nothing. A link update the unique key refuses reports a failure, yet the family update has already been made. Success moves the family and re-points the links. |
| ServicedTransfer.AsWrittenFailureMovesFamily | routes/serviced-transfer.js:39-52 | The route as written can report a failure after changing the store. |
| ServicedTransfer.HalfTransferInput | routes/serviced-transfer.js:39-52 | A well-formed store in which that happens: serviced person 5 of family 2, linked to servants 10 and 11, moved to servant 12 of family 3. |
| ServicedTransfer.Transfer | routes/serviced-transfer.js:36-52 | With the two updates in one transaction, every failure leaves the store unchanged. Success moves the family and re-points the links. |
| ServicedTransfer.MoveFamilyChangesOnlyThatRow | routes/serviced-transfer.js:39-44 | The family update changes that serviced person's family and no other row, and keeps the table well formed. |
| ServicedTransfer.RepointedLinks | routes/serviced-transfer.js:47-52 | After the link update, each of the person's link rows points to the new servant. The person is linked exactly when it was before, other rows are unchanged, and no row is lost. |
| Store.InsertFamilyIfAbsent | routes/import-servants.js:68-79 | An existing family is reused with its id. A new name is appended under the next id. Either way the name then finds the returned id. |
| Store.DropIdsMembers | routes/users.js:134-135 | Deleting by a set of ids keeps exactly the rows whose id is not in the set, in order. |
| Store.UnprotectedMembers | routes/families.js:103 | The filtered id list holds exactly the listed ids other than 1. |

## Left out

- HTTP, Express and the JSON encoding of replies are modelled as `Http.Reply`.
  - A failure that `res.json` sends without a status is `Fail(200, ...)`.
  - Messages are reason tags, not the Arabic texts.
- SQL is not interpreted: joins, `GROUP BY`, `EXTRACT`, `ILIKE` and `ORDER BY`.
  - Each aggregating read query is a parameter giving its rows.
  - The listings that only select rows (users, families, servants, serviced people and
    classes) are modelled as sets. Their `ORDER BY` is not modelled.
- `serviced_name` is a unique key in the model (`Store.ServicedValid`), as the import's
  `ON CONFLICT (serviced_name)` requires. ServicedRoutes.AddServiced therefore fails with 500
  when another row holds the name.
- Database errors other than the unique keys named here are not modelled, and neither are
  the replies they cause (500, or failure with rollback). This covers foreign-key failures
  and the cascades the schema may define. The schema is not part of this model.
  - Users.DeleteUser and Families.DeleteFamily: do not model the rows other tables may lose
    or keep through foreign keys.
- Floating point and `toFixed(1)`: a percentage is an exact ratio.
- JavaScript `Date`: `getFridaysCount` counts over a proleptic Gregorian calendar.
  - Time zones are left out. JavaScript's rule that years 0..99 mean 1900..1999 is kept.
  - The 90-days-ago start date of the servant performance report is wall-clock time. The
    report takes its per-servant sums as a parameter.
- Sums and counts from the database are integers. The node-postgres driver may return
  `bigint` as strings. The driver set-up is not part of this model. With strings, the `+=`
  of the TEMP merge would concatenate.
- `Promise.all` runs its steps sequentially and in order.
- A `SELECT` without `ORDER BY` returns rows in insertion order, the order of the store's
  sequences. PostgreSQL does not define that order. This matters where the first row is
  taken:
  - Helpers.FindUser in Login.Attempt (`users.find`). Two stored usernames can normalise
    alike, because the servants import stores them trimmed but not normalised.
  - ImportServiced.Step (the servant lookup).
  - Store.ServicedByName (`rows[0]`).
- Dates are text in the model, in one canonical spelling, and are compared as text. The
  columns are SQL dates, so `"2025-10-3"` and `"2025-10-03"` are one key there and two keys
  in the model. This affects the date-keyed upserts and lookups: Attendance.Mark,
  Attendance.Marked, Attendance.MarksOf, ServicedRoutes.Recorded,
  ServicedRoutes.RecordAttendance, ServicedRoutes.ListClass, MonthlyAttendance.KeyOf and
  MonthlyAttendance.Saved.
- Lower-casing is ASCII-only: `JsString.LowerChar` folds `A`..`Z` and no other letter,
  where `toLowerCase` folds all of Unicode (`É`, Greek and Cyrillic capitals, and so on).
  This affects the class≠family comparison of the monthly serviced filter
  (MonthlyServiced.FilterMembers and MonthlyServiced.FilterDropsFamilyClass) and the key
  normalisation of ImportServiced.CleanRow. Arabic has no case, so the Arabic names the
  system stores are not affected.
- bcrypt is a parameter: hashing is `hash`, comparison is `compare`.
  - A missing password reaches `bcrypt.compare` inside the `try` of login, which gives 500.
    Login.LoginRoute models this.
- Body fields are modelled as typed values: a username or password is a string or absent,
  an id a number or absent. Request bodies whose fields have other JSON types are not
  modelled. Each of these throw sites then behaves as follows:
  - Login.LoginRoute: a truthy non-string password throws at `.replace`
    (`routes/login.js:17`). This is before the `try`, so the promise is rejected and no
    reply is sent.
  - Login.LoginRoute and Users.AddUser: a truthy non-string username throws at `.trim` in
    `normalizeArabicUsername` (`helpers.js:6`). That call is outside the `try` in both
    routes (`routes/login.js:31`, `routes/users.js:11`), so the promise is rejected.
  - Users.AddUser: a truthy non-string password passes the `!password` test
    (`routes/users.js:13`) and makes `bcrypt.hash` throw inside the `try`
    (`routes/users.js:18`), which gives 500.
  - The imports and the serviced routes call `.trim` or `.replace` on body and sheet
    fields as well. A non-string there throws in the same way.
- File upload and parsing (formidable, fs, xlsx) are left out. The imports start from the
  parsed rows, or from `None` for a missing file.
  - The upload-error and unreadable-file replies (500) are left out.
  - Sheet.Cell: cells are text. `sheet_to_json` gives a numeric cell as a number, so a
    cell holding 0 is falsy and fails the required-field filters of
    ImportServants.ValidRows and ImportServiced.ValidRecordsMembers. In the model its text
    `"0"` is truthy and the row is kept.
- Request ids are numbers in the model. Strings from the query or path are modelled by the
  number they name, and an absent or empty string by `None`.
  - A path segment is never empty, so it is truthy even when it names 0.
    ServicedRoutes.ListClass refuses only an absent family id.
  - The users DELETE falls back to the last path segment (`req.url.split("/").pop()`). A
    non-numeric segment reaches SQL and gives 500. The model takes the id already parsed.
- ServicedRoutes: the "manage" listing (`GET /manage/:familyId/:className`) only selects
  rows, like the other plain listings, and is left out.
- The routes that only run one SELECT and return it are left out: `reports-attendance.js`,
  `monthly-attendance-get.js`, `servants.js`, `serviced-search.js`, `get-all-servants.js`,
  `test-db.js` and `servants-with-serviced-count.js`. The manual-or-count rule of the last
  is covered by Helpers.ServicedCountForServant and Users.ListedCount.
- `classes.js` delegates to a controller that is not part of this model.
- `getExpectedSessionsCount` is the constant 12. It is used directly in
  ServantPerformance.PerfRowOf.
- Sheet.Cell: the key order of a parsed sheet row is its column order. JavaScript lists
  integer-like keys first, which only matters for a header such as `"1"`.
- ImportServiced.ImportRecord: records, as the code does, only the serviced name.
  - The `family_id` and `class_name` that the loop looks up are not stored.
  - The imported serviced person is stored with no family and no class.
- Families.RenameFamily: a new name held by another family is modelled as the unique-key
  failure (500).
- Families.DeleteFamily: the single delete does not protect family 1; only the bulk delete
  does. This is modelled as written.
- Users.ListedCount: the listing counts link rows directly. There is no `DISTINCT` and no
  join to `serviced`, unlike the helper. Users.ListedCountIsHelperCount states when the two
  agree.
- MonthlyServiced.MonthlyServicedRoute: the query matches the month only, not the year. It
  is a parameter here.
- AttendanceSummary.SummaryRoute uses the raw month for its year rule. MonthReport.MonthRoute
  pads the month first. Both rules are modelled as written.
- ServicedRoutes.DeleteServiced: leaves the serviced person's `serviced_class_link` rows, as
  the code does.
- Attendance.PostAttendance: on a conflict the stored `family_id` is kept, as the code does.
- Attendance.GetAttendance and Attendance.MarksOf: the marks returned are the stored rows,
  so they include `recordedBy`. The GET's `SELECT` does not return that column. The other
  columns are the ones it returns.

## Findings

| source | as written | input that shows it | evidently intended | confidence | as-written member | corrected member |
|---|---|---|---|---|---|---|
| routes/reports-servant-performance.js:21-28 | `role_group = 'Khadem' OR role_group = 'AmeenSekra' AND u.family_id = $1`: `AND` binds tighter, so the family filter applies only to `'AmeenSekra'` rows | a `'Khadem'` of family 2, report for family 1: the servant is listed | servants of either role, of the given family | high, not executed | ServantPerformance.FamilyFilterMissesKhadem | ServantPerformance.ServantsOfFamily |
| routes/monthly-serviced.js:21-55 | the query selects no `family_name`, so `!r.family_name` is always true and the class≠family filter keeps every row | a class named 'مارمرقس' in the family 'مارمرقس' stays in the list | drop the rows whose class is named after the family | high, not executed | MonthlyServiced.ClassNamedAfterFamilyStays | MonthlyServiced.FilterDropsFamilyClass |
| routes/serviced-transfer.js:39-52 | two separate `UPDATE`s without a transaction; when the link update breaks the unique (servant, serviced) key, the reply is a failure but the family update stays | serviced person 5 of family 2 linked to servants 10 and 11, moved to servant 12 of family 3 | both updates or neither | medium, not executed | ServicedTransfer.AsWrittenFailureMovesFamily | ServicedTransfer.Transfer |
