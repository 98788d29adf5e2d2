# Rotating attendance credentials

This project models the attendance tracker's credential protocol. It has two
halves:

- **The issuer.** This is the faculty's live-session page. Every refresh
  interval it takes one millisecond timestamp and derives two things from it:
  - a manual code, the last six characters of the decimal timestamp;
  - a QR payload, `sessionId|timestamp`.

  It publishes the code to the session row and counts down to the next cycle.
- **The validator.** This is the student page:
  - It derives a device fingerprint: a signed 32-bit hash of the browser's
    attributes.
  - It checks a scanned payload's format and its 20-second freshness.
  - It checks a typed code's syntax and looks for the first active session
    whose live code and inclusive roll range match.
  - It makes exactly one attendance insert. It then reads the store's
    unique-constraint errors as already marked, device reused, or failure.

The project also models the faculty dashboards' history arithmetic:
- the inclusive date filter, paging with `slice` and `ceil(n/k)` pages;
- the absentee list, the present and total counts;
- the teacher's override records;
- the guard on marking a day off.

The legacy dashboard has its own history view, modelled both as written and
corrected.

The backing store, the clock and the camera are inputs:
- The clock is a `now` parameter. Where a loop reads it once per element,
  it is a `clock` function.
- A query result is an `Option` (`None` is an error).
- A record fetch is a map from session id to rolls (a missing id is a
  failed fetch).
- An insert's error is an optional message.

Modules:
- `JsText` — the JavaScript semantics the code relies on:
  - `parseInt` (leading whitespace, a sign, `0x`, stopping at the first
    non-digit, NaN);
  - `isNaN` on a string, as a recogniser of the StringNumericLiteral
    grammar of ECMA-262 section 7.1.4.1.1;
  - `trim`, `split`/`join`, `includes`, `slice` with negative indices, and
    UTF-16 code units.
- `Fingerprint` — `getDeviceFingerprint`.
- `Issuer` — the session page.
- `Validator` — the student page.
- `Protocol` — lemmas joining the two halves: issuer output fed to the
  validator.
- `Roster` — the rows and the absentee loop both dashboards share.
- `History` — the dashboard's history modal, overrides and mark-off.
- `HistoryOld` — the legacy history view.

Behaviour of the code worth noting:
- The manual-code check is `length == 6 && !isNaN(code)`, not "six digits".
  So "1e0000" and "-12345" pass (`Validator.ExponentCodePassesSyntax`,
  `Validator.NegativeCodePassesSyntax`).
- The interval falls back to 15 for 0 as well as for a non-number.
- A QR code exactly 20000 ms old is accepted.
- A timestamp below 100000 gives its whole, shorter decimal text as the
  manual code. It is not zero-padded.

## Model

| member | source | states |
|---|---|---|
| Fingerprint.Wrap32 | js/student.js:37-38 | the result is a signed 32-bit integer, equal to the input when that already is one |
| Fingerprint.Wrap32Congruent | js/student.js:37-38 | inputs that differ by a multiple of 2^32 wrap to the same value |
| Fingerprint.FoldHash | js/student.js:34-39 | the running hash stays within [-2^31, 2^31) and is 0 for no input |
| Fingerprint.AttributeText | js/student.js:30-33 | definition: the six attributes joined with `\|`, a missing core count as the empty text; hashed by Fingerprint.GetDeviceFingerprint |
| Fingerprint.FoldHashIsWrappedPolynomial | js/student.js:34-39 | wrapping after every step equals wrapping the unbounded polynomial sum of c_i * 31^(n-1-i) once |
| Fingerprint.ShiftStepIsFoldStep | js/student.js:37-38 | `((h << 5) - h) + c` then `h & h` is exactly one step h := wrap32(31h + c) |
| Fingerprint.LastUnitChangesHash | js/student.js:35-39 | two inputs that differ only in their last code unit never hash alike |
| Fingerprint.FingerprintOf | js/student.js:40 | the fingerprint is the decimal text of a signed 32-bit integer; the empty attribute text gives "0" |
| Fingerprint.FingerprintIsInt32 | js/student.js:40 | the fingerprint is the decimal text of a signed 32-bit value, and parses back to it |
| Fingerprint.GetDeviceFingerprint | js/student.js:29-41 | the loop over UTF-16 code units of the `\|`-joined attributes returns the fingerprint of that text, which parses to the wrapped polynomial |
| Issuer.RefreshIntervalOfNumber | js/session.js:12 | a decimal speed n gives interval n, except 0, which gives 15 |
| Issuer.RefreshIntervalFallback | js/session.js:12 | an empty speed, or one not starting like a number, gives 15 |
| Issuer.RefreshInterval | js/session.js:12 | `parseInt(qrSpeed) \|\| 15`: the interval is never 0; its values are stated by the two lemmas above |
| Issuer.ManualCode | js/session.js:68-69 | definition: `slice(-6)` of the decimal timestamp; its meaning is stated by Issuer.ManualCodeDigits |
| Issuer.QrPayload | js/session.js:86 | definition: `sessionId\|timestamp`; Protocol.QrRoundTrip states how the validator reads it back |
| Issuer.TimerStep | js/session.js:101-106 | definition: one callback decrements and, at 0 or below, resets to the interval and regenerates; Issuer.TimerClosedForm states its effect over many ticks |
| Issuer.ManualCodeDigits | js/session.js:68-69 | the code is digits; it has exactly six of them iff the timestamp is at least 100000, and then its value is the timestamp modulo 10^6; below that it is the whole timestamp |
| Issuer.CodeAndPayloadShareTimestamp | js/session.js:68-86 | the manual code is the tail of the payload built from the same timestamp |
| Issuer.TimerClosedForm | js/session.js:99-108 | after k ticks with interval N >= 1 the countdown is N - k mod N and codes were regenerated k div N times; a non-positive interval regenerates every tick |
| Issuer.RegeneratesOnMultiples | js/session.js:101-106 | tick k regenerates exactly when k is a multiple of the period |
| Issuer.Period | js/session.js:103-104 | the number of ticks between regenerations is at least 1 |
| Issuer.SessionPage.constructor | js/session.js:12-30 | the interval comes from the speed, the countdown starts at it, and one code is generated and published at start-up |
| Issuer.SessionPage.GenerateAndDisplayCodes | js/session.js:65-97 | one update carrying the code is sent; on success the page shows the code and the payload of the same timestamp; on failure it shows "ERROR" and keeps the old QR code |
| Issuer.SessionPage.Tick | js/session.js:99-108 | the countdown steps; a new code is published exactly when it reaches 0; then the page shows the new code and the payload of that timestamp, or "ERROR" with the old QR when the update fails; otherwise code and QR are unchanged; the invariant tying countdown and updates to the tick count is kept |
| Issuer.SessionPage.UpdateLiveList | js/session.js:133-141 | the list shows the fetched rolls and the count is their number; the code, the QR and the countdown are unchanged |
| Issuer.SessionPage.ListenForAttendance | js/session.js:110-131 | on a fetch error nothing changes; otherwise the rolls and their count are shown and inserts are followed; the code, the QR and the countdown are unchanged |
| Issuer.SessionPage.AddRollToList | js/session.js:143-148 | a realtime insert prepends the roll and raises the count by exactly one; the code, the QR and the countdown are unchanged |
| Issuer.SessionPage.EndSession | js/session.js:34-44 | once confirmed, the session's code is cleared for its own id and the page stops following inserts; the countdown, the list, the code and the QR are unchanged |
| Validator.QrFormatErrorIffMalformed | js/student.js:219-225 | a payload is a format error exactly when it does not hold exactly one `\|` with text on both sides |
| Validator.QrFreshness | js/student.js:227-233 | `id\|t` is expired exactly when now - t > 20000; otherwise it goes to the insert for parseInt(id), future timestamps included |
| Validator.QrWindowBoundary | js/student.js:227-231 | 20000 ms old proceeds, 20001 ms is expired, a future timestamp proceeds |
| Validator.QrNaNTimestampNeverExpires | js/student.js:227-228 | a timestamp that parses as NaN is never expired |
| Validator.QrWithoutDelimiter | js/student.js:219-225 | a payload without `\|` splits into one part and is a format error |
| Validator.QrThreeParts | js/student.js:222-225 | a payload with two delimiters (three parts) is a format error |
| Validator.QrEmptyPart | js/student.js:222-225 | an empty session id (`\|t`) or an empty timestamp (`id\|`) is a format error |
| Validator.CheckQrPayload | js/student.js:219-233 | definition: the decision before any insert (format error, expired, or insert for `parseInt(id)`); stated by Validator.QrFormatErrorIffMalformed and Validator.QrFreshness |
| Validator.FirstEligible | js/student.js:194-200 | the index found is eligible and no earlier session is; none is found exactly when no session is eligible |
| Validator.SessionMatch | js/student.js:185-206 | a failed or empty lookup means no active session; no eligible session means no match; otherwise the first eligible session's id is marked |
| Validator.CheckManualCode | js/student.js:162-167 | the code is refused locally exactly when the trimmed input is not six characters that `isNaN` accepts as a number |
| Validator.ManualCodeSyntaxOk | js/student.js:164 | definition: length 6 and `!isNaN`; the lemmas below say which codes pass |
| Validator.RosterRangeInclusive | js/student.js:192-199 | with one session holding the code, roll r is accepted exactly when start <= r <= end |
| Validator.RosterRangeExample | js/student.js:197-198 | for rolls 100..150: 99 and 151 are refused, 100 and 150 accepted |
| Validator.SixDigitsPassSyntax | js/student.js:164 | six digits always pass the local check |
| Validator.ExponentFormIsNumeric | js/student.js:164 | digits, 'e', digits is numeric to `isNaN` |
| Validator.NegativeFormIsNumeric | js/student.js:164 | a minus sign before digits is numeric to `isNaN` |
| Validator.ExponentCodePassesSyntax | js/student.js:164 | "1e0000" passes the local check |
| Validator.NegativeCodePassesSyntax | js/student.js:164 | "-12345" passes the local check |
| Validator.LetterFailsSyntax | js/student.js:164 | a letter 'a' between digits is refused locally |
| Validator.ClassifyConstraintMessages | js/student.js:245-253 | a message naming the roll constraint is "already marked", even if it also names the device one; one naming only the device constraint is "device reused" |
| Validator.ClassifyInsert | js/student.js:245-253 | definition: no error, then the roll key, then the device key; stated by Validator.ClassifyConstraintMessages |
| Validator.OutcomeMessage | js/student.js:245-256 | the message is success-toned exactly for a new insert or an existing mark |
| Validator.QrResult | js/student.js:222-256 | after a QR payload the message is success-toned exactly when it reached the insert and the insert succeeded or the roll was already marked; a refusal never shows an insert message |
| Validator.DecimalRollLogsIn | js/student.js:85-88 | a decimal roll is accepted and the inserts carry that roll number |
| Validator.AcceptsRoll | js/student.js:86-87 | definition: the trimmed roll is non-empty and `!isNaN`; stated by Validator.DecimalRollLogsIn, Validator.BlankRollRefused and Validator.ExponentRollLogsInAsMantissa |
| Validator.BlankRollRefused | js/student.js:86-87 | blank input is refused |
| Validator.DigitPrefixStops | js/student.js:241 | `parseInt` reads digits up to the first non-digit |
| Validator.ParseIntOfDigitStart | js/student.js:241 | `parseInt` of a text starting with a digit (and not "0x") is the value of its leading digits |
| Validator.ParseIntOfExponentForm | js/student.js:241 | `parseInt("<a>e<b>")` is the value of a |
| Validator.ExponentRollLogsInAsMantissa | js/student.js:86-87 | "<a>e<b>" is accepted as a roll but the inserts carry roll a |
| Validator.StudentPage.constructor | js/student.js:9-71 | a scan link's payload is kept as pending; a stored roll goes straight to the dashboard |
| Validator.StudentPage.ShowResult | js/student.js:259-268 | QR results go to the dashboard element and show the dashboard; manual results go to the manual-code element; the class follows the tone |
| Validator.StudentPage.MarkAttendance | js/student.js:236-268 | exactly one insert with the parsed roll and the fingerprint, then the outcome's message and class on the element of the entry path; the other element is unchanged |
| Validator.StudentPage.HandleQrCodeData | js/student.js:218-234 | format and expiry errors show their message with the error class and make no call; otherwise one insert for the parsed session id, and the dashboard shows its outcome's message and class; the manual-code result is unchanged |
| Validator.StudentPage.HandleManualCodeSubmit | js/student.js:162-210 | a malformed code is refused with no call, its message set and the class left as it was; otherwise one lookup and an insert only for the matched session, with the outcome's message and class; the dashboard result is unchanged |
| Validator.StudentPage.SubmitToSessions | js/student.js:169-209 | one lookup; the messages for no session and no match, class unchanged; one insert for the first eligible session, then its outcome's message and class |
| Validator.StudentPage.Login | js/student.js:85-106 | an accepted roll is stored; a pending scan is consumed once and handled, showing the dashboard with its result's message and class; otherwise the dashboard is shown; a refused roll shows the error and leaves the view, the results and the requests unchanged |
| Validator.StudentPage.Logout | js/student.js:107-112 | the roll is forgotten and the login view shown; results, messages, requests and the pending scan are unchanged |
| Validator.StudentPage.OnQrDecoded | js/student.js:151-155 | a decoded code stops the scanner and is handled once; the dashboard shows its result's message and class; the stored roll, the login error and the manual-code result are unchanged |
| Protocol.QrRoundTrip | js/session.js:86 | the validator accepts the issuer's payload for its own session exactly while it is at most 20000 ms old |
| Protocol.QrScannedInTime | js/student.js:219-233 | a payload scanned within the window goes to the insert for the issuing session |
| Protocol.ManualCodeIsTrimmed | js/session.js:69 | the issued code is its own trim |
| Protocol.ManualCodePassesSyntaxIff | js/session.js:69 | the issued code passes the student's local check exactly when the timestamp is at least 100000 |
| Protocol.DecimalValueInjective | js/session.js:69 | equal-length digit strings with equal values are equal |
| Protocol.ManualCodesCollideIff | js/session.js:69 | two six-digit codes are equal exactly when their timestamps agree modulo 10^6 ms |
| Protocol.LiveCodeAccepted | js/student.js:194-208 | an in-range student typing the live code of an active session is marked in that session, unless an earlier active session holds the same code and covers the roll (the first match wins) |
| Validator.FirstEligibleAt | js/student.js:194-200 | the first eligible session is at i when session i is eligible and none before it is |
| Protocol.StaleCodeRefused | js/student.js:194-206 | a code from a timestamp that differs modulo 10^6 from the live code of every active session is refused |
| Roster.AbsentMembership | js/dashboard.js:327 | a roll is absent exactly when it is in the range and not present |
| Roster.AbsentRolls | js/dashboard.js:327 | definition: the rolls of [start, end] not present, in order; stated by the Roster lemmas around it |
| Roster.AbsentAscending | js/dashboard.js:327 | absentees are strictly ascending and within the range |
| Roster.AbsentCountBound | js/dashboard.js:327 | there are never more absentees than students |
| Roster.FullAttendanceIff | js/dashboardold.js:383-387 | nobody is absent exactly when every roll of the range is present |
| Roster.CollectAbsentees | js/dashboardold.js:377-382 | the roll loop computes the absentee list |
| History.StrLessTrichotomy | js/dashboard.js:294-295 | of a < b, a == b and b < a at least one holds, a < b and b < a never both, and no string is below itself |
| History.StrLessTransitive | js/dashboard.js:294-295 | a < b and b < c give a < c, so with the trichotomy string order is a strict total order |
| History.Filter | js/dashboard.js:294-295 | filtering keeps exactly the elements satisfying the predicate |
| History.FilterConcat | js/dashboard.js:294-295 | filtering keeps the original order |
| History.FilterTwice | js/dashboard.js:294-295 | two filters in a row keep exactly what satisfies both |
| History.FilterByDates | js/dashboard.js:290-296 | definition: the start filter when a start date is set, then the end filter when an end date is set; stated by History.FilterByDatesIsRangeFilter |
| History.FilterByDatesIsRangeFilter | js/dashboard.js:290-296 | the filtered sessions are exactly those inside the date range, in their original order; an empty input does not filter |
| History.DateBoundsInclusive | js/dashboard.js:294-295 | a session dated on either bound is kept |
| History.PageOf | js/dashboard.js:301-304 | definition: `slice((p-1)k, (p-1)k + k)`; stated by History.PageOfWindow and History.PagesPartition |
| History.PageOfWindow | js/dashboard.js:301-304 | page p is the window [(p-1)k, pk) clamped to the list, at most k entries |
| History.TotalPages | js/dashboard.js:348 | the page count is the least number of k-entry pages that hold n entries |
| History.PagesPartition | js/dashboard.js:301-348 | pages 1..ceil(n/k) read in order are exactly the filtered list |
| History.RenderPagination | js/dashboard.js:347-358 | no buttons for at most one page; otherwise buttons 1..ceil(n/k) with only the current one active |
| History.RowSummary | js/dashboard.js:318-330 | a non-Active session shows its status only; an Active one shows total end-start+1, the record count (0 without data), the ascending in-range rolls without a record, and Modify exactly when one is missing |
| History.RowOf | js/dashboard.js:314-330 | definition: one session's row; stated by History.RowSummary |
| History.BuildRow | js/dashboard.js:314-343 | one session's row, absentees computed by the roll loop |
| History.OverrideRecords | js/dashboard.js:391-395 | one record per checked roll, in order, with fingerprint `manual_override_by_teacher_<now>_<roll>` |
| History.OverrideFingerprintInjective | js/dashboard.js:394 | a fingerprint determines both the time and the roll |
| History.OverrideFingerprintsDistinct | js/dashboard.js:391-395 | distinct rolls give distinct fingerprints in a batch, whatever the clock returns |
| History.ConfirmModify | js/dashboard.js:379-388 | the batch is sent exactly when at least one roll is checked, with one record per roll |
| History.FindClass | js/dashboard.js:246 | the class found is listed and has the selected id; none is found exactly when no listed class has it |
| History.MarkOffInsertsOnlyNewDays | js/dashboard.js:224-251 | an off day is inserted exactly when class and date are given, the check succeeded and found no session, and the class is listed; the row has the reason as status and the class's default times |
| History.MarkOffKeepsDaysUnique | js/dashboard.js:224-251 | when the existence check reports the stored sessions of the class and date, an off day is inserted only where there was none; afterwards there is exactly one, and no other class or date gains a row |
| History.MarkOffDecision | js/dashboard.js:224-251 | definition: the guard chain of marking a day off; stated by History.MarkOffInsertsOnlyNewDays |
| History.HistoryState.constructor | js/dashboard.js:7-13 | the history state starts with no sessions, page 1, ten entries per page, no selected class and no date filters |
| History.HistoryState.RenderHistoryPage | js/dashboard.js:301-345 | the rows are those of the current page's sessions, or the no-match message for an empty page, and the pagination is rendered |
| History.HistoryState.ApplyHistoryFilters | js/dashboard.js:290-299 | the filtered list is recomputed, the page returns to 1 and is shown |
| History.HistoryState.ChangeDateFilters | js/dashboard.js:50-51 | a date change refilters and returns to page 1; the sessions, the page size and the selected class are unchanged |
| History.HistoryState.SetEntriesPerPage | js/dashboard.js:52-56 | the new page size is set, the page returns to 1 and the filters are applied; the sessions, the dates and the selected class are unchanged |
| History.HistoryState.GoToPage | js/dashboard.js:360-365 | the chosen page is shown; the sessions, the filtered list, the page size, the dates and the selected class are unchanged |
| History.HistoryState.OpenHistory | js/dashboard.js:265-288 | a failed load shows the error and leaves the sessions, filters, page and page size as they were; otherwise the class's sessions replace the list, the date filters are cleared, the page size is 10 and page 1 is shown |
| HistoryOld.EntrySummary | js/dashboardold.js:362-387 | a non-Active session shows date and status only; an Active one shows total end-start+1, 'N/A' exactly when the fetch failed, "Full Attendance!" exactly when every roll has a record, else the count and the ascending list of absentees |
| HistoryOld.EntryOf | js/dashboardold.js:362-387 | definition: one session's entry; stated by HistoryOld.EntrySummary |
| HistoryOld.FirstFetchFailure | js/dashboardold.js:365-370 | the session found is the first Active one whose records fetch failed |
| HistoryOld.HistoryAsWritten | js/dashboardold.js:345-393 | definition: the view as written, cut at the first failed fetch; stated by HistoryOld.AsWrittenStopsAtFetchFailure |
| HistoryOld.HistoryCorrected | js/dashboardold.js:345-352 | a failed load shows the error, an empty list "No history found", otherwise one entry per session |
| HistoryOld.CorrectedListsEverySession | js/dashboardold.js:356-392 | the i-th entry is the i-th session's |
| HistoryOld.AsWrittenStopsAtFetchFailure | js/dashboardold.js:370-376 | as written, a failed fetch cuts the list short at that session; what is shown is a prefix of the corrected list; with no failure both agree |
| HistoryOld.FetchFailureCounterexample | js/dashboardold.js:376 | one Active session whose fetch fails: nothing is shown as written, 'N/A' and all rolls absent when corrected |
| HistoryOld.ViewHistoryAsWritten | js/dashboardold.js:332-393 | the loop as written computes the as-written view |
| HistoryOld.ViewHistory | js/dashboardold.js:332-393 | the corrected loop computes the corrected view |
| JsText.ParseIntOfIntToString | js/student.js:233 | `parseInt` reads back any integer's decimal text |
| JsText.DecimalRoundTrip | js/session.js:69 | a number's decimal text has that value |
| JsText.SuffixValue | js/session.js:69 | the last k digits have the value modulo 10^k |
| JsText.DecimalLength | js/session.js:69 | a number is below 10^k exactly when its decimal text has at most k digits |
| JsText.SplitJoin | js/student.js:219 | splitting joined parts that hold no separator gives the parts back |
| JsText.JoinSplit | js/student.js:219 | joining the parts of a split gives the text back |
| JsText.IncludesInfix | js/student.js:247-249 | a message includes any key placed inside it |
| JsText.Slice | js/dashboard.js:304 | within bounds `slice` is the subsequence, and never longer than the input |
| JsText.Trim | js/student.js:86 | the result is no longer than the input and has no whitespace at either end; what it removes is stated by JsText.TrimStripsOnlyWhitespace |
| JsText.TrimStripsOnlyWhitespace | js/student.js:86 | `trim` returns an infix of the input such that everything cut before and after it is whitespace, and the infix is empty or has no whitespace at either end |

## Left out

- The backing store is not modelled. Queries, inserts, updates and the realtime channel are inputs or recorded requests. The uniqueness constraints are the store's; the model only reads their error messages.
- Camera access, the `tick` frame loop and QR decoding (js/student.js:124-159) are left out. A decoded payload is an input to `Validator.StudentPage.OnQrDecoded`.
- `atob` and URL parsing of a scan link (js/student.js:10-24) are left out. The constructor takes the decoded payload.
- QR rendering, DOM text other than result messages, HTML templates, date formatting and the clipboard are presentation and are left out.
- The session title fetch (js/session.js:47-62) and the redirect when no session is stored (js/session.js:5-10) are presentation and navigation.
- Disabling and relabelling the submit and save buttons is not modelled. It only changes presentation.
- Reading `navigator` and `screen` is left out. `Fingerprint.DeviceAttributes` carries the values.
- The clock is a parameter. Skew and the asynchronous interleaving of awaited calls with timer ticks and realtime events are not modelled: each handler runs to completion.
- JavaScript numbers are unbounded integers. Rounding above 2^53 and exponent rendering of numbers from 10^21 are not modelled, because timestamps and roll numbers stay far below them.
- Strings are sequences of Unicode scalar values. Only the fingerprint, which reads `charCodeAt`, expands them into UTF-16 code units. A six-character check on text with characters outside the BMP may therefore differ, but any such code is refused by `isNaN` anyway.
- History.HistoryState.SetEntriesPerPage: requires a positive page size. The select's options are in the page's HTML, which is not part of this model; they are assumed to be positive numbers (js/dashboard.js:52-53).
- History.FindClass: compares the class id's decimal text with the selected value, where the source uses loose `==`. The select's values are the ids themselves.
- History.MarkOffInsertsOnlyNewDays: an id matching no listed class is the `UnknownClass` outcome, where the source fails with a TypeError reading its times.
- History.ConfirmModify: takes the checked rolls as integers, the `parseInt` of the checkboxes' values, which are the absentees' decimal texts.
- History.HistoryState.OpenHistory: takes the selected class row rather than finding it among the listed classes (js/dashboard.js:266-267).
- js/attendance-animation.js, js/pingIndicator.js, sw.js, js/config.js, js/auth.js and js/faculty.js are not part of this model: they hold animation, network probing, caching, client set-up and redirects.

## Findings

| source | as written | input that shows it | evidently intended | confidence | as-written member | corrected member |
|---|---|---|---|---|---|---|
| js/dashboardold.js:370-376 | after a failed attendance fetch `records` is null, yet `records.map` is read; the loop throws and the remaining sessions get no entry | a class with rolls 1..3 and one Active session whose attendance fetch fails | show 'N/A' for that session and go on listing, treating missing records as none, as js/dashboard.js:324-325 does | medium; not executed | HistoryOld.FetchFailureCounterexample | HistoryOld.HistoryCorrected |
