# Dock scheduling and driver check-in: a Dafny model

This project models the decision logic of a warehouse's dock scheduling system.
Drivers check in at a kiosk with a customer pickup number. Customer service
representatives (CSRs) assign each checked-in driver a dock and an appointment
slot, and text the driver where to go. The daily log lists the day's check-ins
in Eastern time. The dock status page shows the state of docks 1 to 70 and
keeps a browser-side list of blocked docks. Appointments come from pasted
text, JSON or an Excel upload and are stored in an `appointments` table that
a PHP endpoint lists, counts, searches and edits.

There is one Dafny module per source file:

- `DockStatus` models the dock status page.
- `AssignDock` models the dock assignment dialog.
- `AppointmentParser` models the text and JSON appointment parsers and the validator.
- `AppointmentsApi` models the PHP endpoint, with the table as a class.
- `AppointmentsService` models the Supabase appointment service.
- `DriverCheckInForm` and `DriverCheckIn` model the two check-in pages.
- `CsrDashboard` models the CSR dashboard.
- `DailyLog` models the Eastern-time formatting of the daily log.
- `SendSms` models the text-message route.
- `AppointmentTypes` models the shared record and `TIME_SLOTS`.

The support modules `Text`, `Clock` and `Optional` define JavaScript
whitespace and trimming, digit strings, "HH:MM" clocks, and an option type.

Pages whose handlers update component state become classes. Their fields are
the component's state plus the table rows the page writes. Each handler is a
method whose `ensures` gives the whole new state in terms of the old state.
Pure helpers become functions, and loops become methods with invariants.
Each method is proved against a specification function, and the lemmas state
the properties of those functions.

Database calls, the Twilio client, the clock and the browser's storage are
parameters:
- a status code or error that the call returns;
- a sequence of rows standing for the table;
- a map standing for `localStorage`'s `blocked_docks`;
- milliseconds since the epoch standing for "now".

## Model

| member | source | states |
|---|---|---|
| AppointmentTypes.TimeSlotMinutes | src/types/appointments.ts:20-25 | the 21 slots are valid times of day, slot i is 6:00 plus 30·i minutes, and the minutes alternate 00/30 |
| AppointmentTypes.TimeSlotsShape | src/types/appointments.ts:20-25 | the list runs from "06:00" to "16:00", and every slot falls on the hour or the half hour |
| AppointmentTypes.TimeSlotsStep | src/types/appointments.ts:20-25 | consecutive slots are 30 minutes apart, so the list is strictly increasing and has no repeats |
| DockStatus.BuildDockStatuses | src/app/dock-status/page.tsx:90-143 | the three loops (initialise 70 docks, push each row's order, list in numeric order) produce exactly `Board` of the block list and the active rows |
| DockStatus.InitialDocks | src/app/dock-status/page.tsx:93-105 | every dock "1".."70" starts blocked with its reason if listed, and available with no orders otherwise |
| DockStatus.PlaceRows | src/app/dock-status/page.tsx:107-136 | after the row loop each dock holds what `ResolveDock` gives for the rows read |
| DockStatus.ResolveStep | src/app/dock-status/page.tsx:109-133 | one more row adds its order to the dock it names and recomputes that dock's status, unless the dock is blocked; other docks are unchanged |
| DockStatus.IsActive | src/app/dock-status/page.tsx:81 | a row whose status is not exactly "complete"; `OnlyCompleteIsExcluded` states the filter |
| DockStatus.ActiveRows | src/app/dock-status/page.tsx:78-83 | the query keeps only rows whose status is not "complete", never more rows than the table has |
| DockStatus.OnlyCompleteIsExcluded | src/app/dock-status/page.tsx:81 | a "complete" row is dropped and any other row is kept, at the end |
| DockStatus.Board | src/app/dock-status/page.tsx:90-143 | the board always has 70 docks |
| DockStatus.OrdersOn | src/app/dock-status/page.tsx:108-124 | the orders pushed onto a dock; `OrdersOnCount`, `OrdersOnMembers` and `OrdersOnAppend` state them |
| DockStatus.StatusForCount | src/app/dock-status/page.tsx:99-129 | the status from the number of orders; `UnblockedDockStatus` states it in both directions |
| DockStatus.ResolveDock | src/app/dock-status/page.tsx:98-130 | a listed dock is blocked, flagged manual, with no orders and its stored reason; any other dock carries the orders on it and is available with none, double-booked with two or more |
| DockStatus.BoardLayout | src/app/dock-status/page.tsx:94-95 | dock i of the board is `(i+1).toString()`, these parse back to i+1, and no dock number repeats |
| DockStatus.DockKeysDistinct | src/app/dock-status/page.tsx:94-95 | different indices give different dock keys |
| DockStatus.ResolveDockNumber | src/app/dock-status/page.tsx:98-99 | an entry carries the dock number it was built for |
| DockStatus.BlockedDockHidesOrders | src/app/dock-status/page.tsx:100-103 | a blocked dock shows "blocked" with its reason and no orders, whatever rows name it |
| DockStatus.UnblockedDockStatus | src/app/dock-status/page.tsx:115-130 | an unblocked dock is available, in use or double-booked exactly when 0, 1 or at least 2 rows name it, and it lists those rows' orders |
| DockStatus.OrdersOnCount | src/app/dock-status/page.tsx:109-123 | the number of orders on a dock is the number of rows naming it |
| DockStatus.OrdersOnMembers | src/app/dock-status/page.tsx:116-122 | an order is on a dock exactly when some row naming that dock produced it |
| DockStatus.OrdersOnAppend | src/app/dock-status/page.tsx:109 | orders are collected row by row, in input order |
| DockStatus.UnknownDockIgnored | src/app/dock-status/page.tsx:110-113 | a row whose dock is not "1".."70" (empty, "Ramp", "07") leaves the board unchanged |
| DockStatus.RampAndPaddedAreNotDocks | src/app/dock-status/page.tsx:94-95 | "Ramp", "07" and "" are not dock keys |
| DockStatus.BlockDock | src/app/dock-status/page.tsx:168-176 | blocking is refused when no dock is selected or the reason is blank; otherwise only the selected dock's entry changes, to the trimmed, non-empty reason |
| DockStatus.UnblockDock | src/app/dock-status/page.tsx:161-164 | unblocking removes exactly that dock's entry, and does nothing if the dock is absent |
| DockStatus.UnblockAfterBlock | src/app/dock-status/page.tsx:161-176 | blocking and then unblocking a dock leaves the same list as unblocking it directly |
| DockStatus.BlockThenUnblockOnBoard | src/app/dock-status/page.tsx:98-130 | after a block the dock shows blocked with the trimmed reason; after the unblock it shows its orders again |
| DockStatus.CountStatus | src/app/dock-status/page.tsx:218-223 | a status count never exceeds the number of docks |
| DockStatus.StatsSum | src/app/dock-status/page.tsx:218-223 | the four counters add up to the number of docks |
| DockStatus.BoardStats | src/app/dock-status/page.tsx:218-223 | the four counters, one per status; `StatsSum` states that they cover every dock once |
| DockStatus.FilterDocksSpec | src/app/dock-status/page.tsx:214-216 | filtering by a status keeps exactly the docks with that status, as many as the counter shows |
| DockStatus.FilterDocks | src/app/dock-status/page.tsx:214-216 | the filtered list is no longer than the board, and with a status chosen every dock in it has that status |
| DockStatus.FilterDocksAppend | src/app/dock-status/page.tsx:214-216 | the filter keeps the board's order |
| DockStatus.DockNumbers | src/app/dock-status/page.tsx:110-111 | the dock numbers of the rows, in order |
| DockStatus.ReasonShown | src/app/dock-status/page.tsx:154-157 | the prefilled reason is that of the first dock with the number (`find`), "" when its reason is absent, and "" when no dock has the number |
| DockStatus.DockStatusPage.constructor | src/app/dock-status/page.tsx:24-29 | the page starts with the stored block list, no docks, the block dialog closed and the filter "all" |
| DockStatus.DockStatusPage.FetchDockStatuses | src/app/dock-status/page.tsx:75-152 | after a successful query the docks shown become the board of the current block list and the active rows; after a failed one, which is caught and logged, the old board stays |
| DockStatus.DockStatusPage.HandleBlockDock | src/app/dock-status/page.tsx:154-159 | opens the block dialog on the dock, prefilled with its current reason or "" |
| DockStatus.DockStatusPage.HandleUnblockDock | src/app/dock-status/page.tsx:161-166 | removes the dock from the block list, then rebuilds the board, or keeps the old one when the query fails |
| DockStatus.DockStatusPage.SubmitBlockDock | src/app/dock-status/page.tsx:168-182 | if the guard passes: stores the block, closes and clears the dialog, and rebuilds the board (the old one stays when the query fails); otherwise nothing changes |
| AssignDock.OccupantsOf | src/components/AssignDockModal.tsx:64-68 | the rows of the occupancy query in order; `OccupantsOfEmpty` and `OccupiedOnBoard` state when it is empty |
| AssignDock.Blocks | src/components/AssignDockModal.tsx:45-50 | `blocked[dock]` is truthy exactly for a dock on the block list; `CheckDockStatus` states its effect |
| AssignDock.OccupantsOfEmpty | src/components/AssignDockModal.tsx:64-72 | the query returns no rows exactly when no row that is not complete names the dock |
| AssignDock.OccupiedOnBoard | src/components/AssignDockModal.tsx:64-68 | the dialog finds an occupant exactly when the dock status page lists an order on that dock |
| AssignDock.AgreesWithBoard | src/components/AssignDockModal.tsx:42-91 | the dialog's blocked / in use / available matches the board's blocked / in use or double-booked / available for every dock |
| AssignDock.CheckDockStatus | src/components/AssignDockModal.tsx:42-91 | a listed dock is blocked with a warning; otherwise the dock is in use with its occupants and a warning exactly when some active row names it, and available otherwise |
| AssignDock.NoDoubleBookedState | src/components/AssignDockModal.tsx:72-78 | one occupant and two occupants are both reported as "in use" |
| AssignDock.SubmitDecision | src/components/AssignDockModal.tsx:93-130 | a blank number is refused, then a blocked dock, then an in-use dock without confirmation; any write stores the trimmed, non-empty number |
| AssignDock.SubmitAfterCheck | src/components/AssignDockModal.tsx:42-130 | after a check of the typed number: a blocked dock is refused even with confirmation, an occupied dock is written iff confirmed, a free dock is written |
| AssignDock.SetDock | src/components/AssignDockModal.tsx:125-131 | the update changes the dock and `updated_at` of the entry with the given id only |
| AssignDock.AssignDockModal.constructor | src/components/AssignDockModal.tsx:26-31 | the dialog opens with an empty dock number and no dock info |
| AssignDock.AssignDockModal.TypeDockNumber | src/components/AssignDockModal.tsx:33-91 | typing stores the text; a non-empty text runs the check on the text as typed, untrimmed; when the occupancy query fails, which is caught and logged, the previous dock info and warning stay; an empty text clears the dock info |
| AssignDock.AssignDockModal.HandleSubmit | src/components/AssignDockModal.tsx:93-146 | the outcome is `SubmitDecision`; only a write that the database accepts changes the log, on the entry's own row, and resets the dialog; a failed update leaves the dialog and the log as they were |
| AssignDock.UntrimmedCheckWritesBlockedDock | src/components/AssignDockModal.tsx:33-40 | as written, " 12" passes the check while "12" is blocked, and the submit stores "12" |
| AssignDock.CheckTrimmed | src/components/AssignDockModal.tsx:42-91 | the corrected check, made on the trimmed number, which is the number a submit stores |
| AssignDock.TrimmedCheckGuardsWrite | src/components/AssignDockModal.tsx:93-130 | with the trimmed check, a written dock is never blocked and is occupied only if confirmed |
| AppointmentParser.Hour24 | src/lib/appointmentParser.ts:107-111 | 12 PM stays 12, 12 AM becomes 0, other PM hours add 12 |
| AppointmentParser.SlotNamesShape | src/lib/appointmentParser.ts:119-135 | every named-slot key has no colon and ends in "M" |
| AppointmentParser.SlotNamesValues | src/lib/appointmentParser.ts:119-135 | every named slot maps to a valid time of day |
| AppointmentParser.NormalizeTimeAsWritten | src/lib/appointmentParser.ts:65-143 | as written: the result is "Work In" or an "HH:MM" string with hour below 24 (its minutes may exceed 59) |
| AppointmentParser.Cleaned | src/lib/appointmentParser.ts:69 | `time.trim().toUpperCase()`; `NormalizeIgnoresCase`, `CleanedIsItself` and `WorkIn` state its effect |
| AppointmentParser.NormalizeCleaned | src/lib/appointmentParser.ts:71-142 | the rule cascade on the trimmed, upper-cased text: the result is "Work In" or "HH:MM" with hour below 24, and a valid time of day when the minutes are checked |
| AppointmentParser.Normalize | src/lib/appointmentParser.ts:65-143 | the empty time gives nothing; otherwise the cascade on the cleaned text, with the same result shape |
| AppointmentParser.NormalizeTime | src/lib/appointmentParser.ts:65-143 | the corrected normaliser, with the AM/PM minutes checked: the result is "Work In" or a valid time of day |
| AppointmentParser.StrictDropsBadMinutes | src/lib/appointmentParser.ts:101-116 | the corrected normaliser is the written one with every result whose minute is 60 or more dropped |
| AppointmentParser.StrictCleanedDropsBadMinutes | src/lib/appointmentParser.ts:71-142 | the same, on the cleaned text |
| AppointmentParser.SlotNamesClean | src/lib/appointmentParser.ts:119-135 | every slot name is upper case with no white space at either end |
| AppointmentParser.SlotRuleOnly | src/lib/appointmentParser.ts:72-139 | cleaned text with no colon that ends in "M" is decided by the slot table alone |
| AppointmentParser.SlotNameTime | src/lib/appointmentParser.ts:119-139 | each slot name normalises to the time the table gives it, e.g. "930AM" to "09:30" |
| AppointmentParser.NoFormIsNone | src/lib/appointmentParser.ts:66-142 | text matching no form, and the empty text, give nothing |
| AppointmentParser.EightSeventyFiveParts | src/lib/appointmentParser.ts:101-114 | the digits and padding of "8:75 AM" |
| AppointmentParser.EightSeventyFive | src/lib/appointmentParser.ts:101-116 | as written, "8:75 AM" becomes "08:75"; the corrected normaliser refuses it |
| AppointmentParser.NormalizeIgnoresCase | src/lib/appointmentParser.ts:69 | inputs equal after upper-casing normalise alike |
| AppointmentParser.WorkIn | src/lib/appointmentParser.ts:72-74 | "work in" or "workin", in any case and padding, becomes "Work In" |
| AppointmentParser.FourDigitTime | src/lib/appointmentParser.ts:81-88 | "HHMM" becomes "HH:MM" when the hour is below 24 and the minute below 60, and is refused otherwise |
| AppointmentParser.ColonTime | src/lib/appointmentParser.ts:91-98 | "H:MM"/"HH:MM" is zero-padded when in range and refused otherwise |
| AppointmentParser.ColonRulesOnly | src/lib/appointmentParser.ts:91-116 | a cleaned string with its colon after one or two digits is decided by the colon and AM/PM rules alone |
| AppointmentParser.ColonRule | src/lib/appointmentParser.ts:91-98 | the 24-hour colon rule on a cleaned string |
| AppointmentParser.MeridiemRule | src/lib/appointmentParser.ts:101-116 | the AM/PM rule on a cleaned string |
| AppointmentParser.MeridiemTime | src/lib/appointmentParser.ts:101-116 | "H:MM AM/PM" converts the hour to 24-hour form and keeps the minutes; the corrected rule also refuses minutes of 60 or more |
| AppointmentParser.MeridiemValue | src/lib/appointmentParser.ts:101-116 | the same, stated on the cleaned string |
| AppointmentParser.EmptyTime | src/lib/appointmentParser.ts:66 | the empty time is refused |
| AppointmentParser.ClockStable | src/lib/appointmentParser.ts:91-98 | a valid "HH:MM" normalises to itself |
| AppointmentParser.NormalizeStable | src/lib/appointmentParser.ts:72-98 | every value the normaliser produces normalises to itself |
| AppointmentParser.AsWrittenIdempotent | src/lib/appointmentParser.ts:65-143 | as written, normalising twice is normalising once, for results whose minutes are below 60 |
| AppointmentParser.MeridiemMinutesUnchecked | src/lib/appointmentParser.ts:101-116 | as written, "8:75 AM" gives a clock with 75 minutes, although "8:75" alone is refused |
| AppointmentParser.NormalizeIdempotent | src/lib/appointmentParser.ts:65-143 | the corrected normaliser is idempotent, and its results are valid times or "Work In" |
| AppointmentParser.MeridiemRefusesMinutes | src/lib/appointmentParser.ts:101-116 | the corrected normaliser refuses AM/PM times whose minutes are 60 or more |
| AppointmentParser.IsIsoDate | src/lib/appointmentParser.ts:31 | the `^\d{4}-\d{2}-\d{2}$` test; `ParseLine` and `ValidateAppointment` state where it decides |
| AppointmentParser.IsHeader | src/lib/appointmentParser.ts:14 | a line whose lower-cased text contains "appointment" or "date"; `ParseLine` states that such a line gives nothing |
| AppointmentParser.Fields | src/lib/appointmentParser.ts:24 | splitting a line gives at least one field, each trimmed |
| AppointmentParser.NotesOf | src/lib/appointmentParser.ts:50 | the notes are trimmed; they are "" when the line has five fields or fewer, and the sixth field itself when it is the last one |
| AppointmentParser.TrimOfOne | src/lib/appointmentParser.ts:50 | one trimmed field joined on its own is that field |
| AppointmentParser.FieldOr | src/lib/appointmentParser.ts:28-49 | the field at that position, or "" when the line has no such field |
| AppointmentParser.ParseLine | src/lib/appointmentParser.ts:12-52 | a line yields a record iff it is not blank, not the header, has two fields, an ISO date and a time the written normaliser recognises; the record carries that date, that normalised time ("Work In" or "HH:MM" with hour below 24), the third to fifth fields (or "") as sales order, delivery and carrier, and the later fields joined as notes, all trimmed |
| AppointmentParser.ParseLines | src/lib/appointmentParser.ts:12-52 | one outcome per line |
| AppointmentParser.ParseLinesAppend | src/lib/appointmentParser.ts:12 | lines are parsed independently |
| AppointmentParser.NonBlank | src/lib/appointmentParser.ts:9 | the kept lines are not blank |
| AppointmentParser.ParseAll | src/lib/appointmentParser.ts:12-52 | the records of the lines that parse, at most one per line |
| AppointmentParser.ParseAppointments | src/lib/appointmentParser.ts:7-60 | the loop's result is the records of the non-blank lines of the text, in order, each timed by the written normaliser |
| AppointmentParser.ParseAllAppend | src/lib/appointmentParser.ts:12-52 | parsing distributes over concatenation |
| AppointmentParser.ParseAllMembers | src/lib/appointmentParser.ts:44-51 | a record is in the result iff some line parses to it |
| AppointmentParser.BlankLineSkipped | src/lib/appointmentParser.ts:9 | a blank line contributes nothing |
| AppointmentParser.KeptLine | src/lib/appointmentParser.ts:9 | keeping a line only when it is not blank parses to the same records |
| AppointmentParser.ParseAllNonBlank | src/lib/appointmentParser.ts:9 | dropping blank lines first does not change the result |
| AppointmentParser.ParsedRecordsWellFormed | src/lib/appointmentParser.ts:7-60 | every parsed record has an ISO date, "Work In" or an "HH:MM" time with hour below 24 (the minute is not checked), and trimmed text fields |
| AppointmentParser.Or | src/lib/appointmentParser.ts:154-158 | `a \|\| b` is empty only when both are |
| AppointmentParser.DefaultTimeIsClock | src/lib/appointmentParser.ts:155 | the default "08:00" is a valid time |
| AppointmentParser.MapItem | src/lib/appointmentParser.ts:153-160 | each field takes its first truthy alias; the time is the written normaliser's result, "Work In" or "HH:MM" with hour below 24, or "08:00" when it gives nothing; carrier and notes are copied |
| AppointmentParser.ParseAppointmentsJson | src/lib/appointmentParser.ts:148-168 | a non-array gives no records; an array gives one mapped record per item, in order |
| AppointmentParser.IsValid | src/lib/appointmentParser.ts:173-191 | the record the validator accepts; `ValidateAppointment` states that no error comes back exactly for it |
| AppointmentParser.ValidateAppointment | src/lib/appointmentParser.ts:173-191 | no errors iff valid; each message appears exactly when its condition holds; at most three errors |
| AppointmentParser.ParsedValidIffReference | src/lib/appointmentParser.ts:7-60 | a parsed record is valid iff it has a sales order or a delivery |
| AppointmentParser.JsonTimeNeverMissing | src/lib/appointmentParser.ts:155 | JSON records always carry a time |
| AppointmentParser.JsonKeepsBadMinutes | src/lib/appointmentParser.ts:155 | as written, an item timed "8:75 AM" is stored at "08:75" |
| AppointmentsApi.Rank | appointments.php:76-83 | `$timeOrder[$t] ?? 99`; `RankOfSlots` states the ranks |
| AppointmentsApi.RankOfSlots | appointments.php:76-83 | the 14 known slots rank 1 to 14 in order, and every other time ranks 99 |
| AppointmentsApi.Compare | appointments.php:75-85 | negative, zero or positive exactly as the first time ranks before, level with or after the second, between −98 and 98 |
| AppointmentsApi.CompareOrdersSlots | appointments.php:75-85 | known slots sort in list order and before any unknown time |
| AppointmentsApi.CompareLevel | appointments.php:82-84 | the comparator is antisymmetric, and ties only equal times or two unknown times |
| AppointmentsApi.CompareTransitive | appointments.php:82-84 | the comparator is transitive |
| AppointmentsApi.SortedCons | appointments.php:75 | a sorted list with a smaller head is sorted |
| AppointmentsApi.InsertBy | appointments.php:75 | insertion keeps the list sorted and adds exactly the one element |
| AppointmentsApi.SortBy | appointments.php:75 | the sort is sorted and a permutation |
| AppointmentsApi.SortBySlot | appointments.php:75-85 | the listed rows are ordered by the slot comparator and are a permutation of the day's rows |
| AppointmentsApi.RowsOn | appointments.php:69 | exactly the rows of the requested date |
| AppointmentsApi.CleanOld | appointments.php:57-61 | the cleanup never adds rows |
| AppointmentsApi.CleanOldMembers | appointments.php:57-61 | a row survives iff it is dated at most seven days before today |
| AppointmentsApi.CleanOldIdempotent | appointments.php:57-61 | cleaning twice is cleaning once |
| AppointmentsApi.CleanOldKeepsListedDay | appointments.php:64-70 | the cleanup before a listing keeps a recent day's rows and empties an older day |
| AppointmentsApi.CountOfAbsent | appointments.php:102-106 | a time that no row has counts 0 |
| AppointmentsApi.CountOf | appointments.php:102-106 | the number of rows with a given time, never more than the rows |
| AppointmentsApi.Counts | appointments.php:102-106 | the loop's map has exactly the times present, each with its number of rows |
| AppointmentsApi.SumCountsSnoc | appointments.php:102-106 | one more row adds its occurrences to the sum |
| AppointmentsApi.OccurrencesDistinct | appointments.php:102-106 | a key listed once occurs once |
| AppointmentsApi.CountsSumToRows | appointments.php:102-106 | the counts add up to the number of rows |
| AppointmentsApi.SumCountsEmpty | appointments.php:102-106 | no rows sum to 0 |
| AppointmentsApi.LexLessTransitive | appointments.php:120 | the string order on times is transitive |
| AppointmentsApi.LexLessIrreflexive | appointments.php:120 | and irreflexive |
| AppointmentsApi.BeforeTransitive | appointments.php:120 | the order by (date, time) is transitive |
| AppointmentsApi.PreferIsEarliest | appointments.php:120-121 | keeping the earlier candidate preserves "earliest so far" |
| AppointmentsApi.Earliest | appointments.php:120-121 | the result is a candidate that no candidate precedes, and there is one iff a candidate exists |
| AppointmentsApi.Find | appointments.php:115-138 | a sales-order match from today on, when that query answers 200, takes priority; otherwise, and also when the sales-order query fails, the delivery query's earliest match is used; a failed delivery query finds nothing |
| AppointmentsApi.FailedSalesOrderQueryFallsThrough | appointments.php:121-136 | a failed sales-order query gives the delivery query's answer |
| AppointmentsApi.FindFallsThroughExample | appointments.php:121-136 | with one sales-order match and one delivery match, the sales-order row is found, but the delivery row is found when the sales-order query fails |
| AppointmentsApi.IsCandidate | appointments.php:115-138 | the find query's filter: the reference matches in the chosen column and the date is today or later; `Find` states the choice among candidates |
| AppointmentsApi.EarliestAfterCleanup | appointments.php:57-61 | the cleanup never removes a candidate |
| AppointmentsApi.FindAfterCleanup | appointments.php:115-138 | so a search gives the same answer before and after the cleanup, whichever queries fail |
| AppointmentsApi.SlotOfShape | appointments.php:179-185 | removing the colon from a valid "H:i" time gives four digits with the same hour and minute |
| AppointmentsApi.SlotOf | appointments.php:185 | removing the colons leaves no colon and no longer text; `SlotOfShape` gives the slot of a valid time |
| AppointmentsApi.PhpEmpty | appointments.php:165 | PHP's `empty()` on a cell: the empty string or "0"; `QueuedMembers` states its effect |
| AppointmentsApi.RecordOf | appointments.php:185-198 | the record a converted row is queued as; `QueuedShape` states its source and slot |
| AppointmentsApi.IsStored | appointments.php:188-191 | the duplicate check on date, slot, sales order and delivery; `QueuedMembers` states its effect |
| AppointmentsApi.SlotInjective | appointments.php:185 | different times give different slots |
| AppointmentsApi.Queued | appointments.php:158-200 | no more records are queued than there are sheet rows |
| AppointmentsApi.QueueRows | appointments.php:158-200 | the loop queues exactly `Queued` |
| AppointmentsApi.QueuedMembers | appointments.php:164-199 | a record is queued iff some non-empty row converts to it and it was not already stored |
| AppointmentsApi.QueuedShape | appointments.php:185-198 | every queued record has source "excel" and a four-digit slot in range |
| AppointmentsApi.RepeatedRowQueuedTwice | appointments.php:188-199 | the duplicate check looks only at the table, so a row repeated in the sheet is queued twice |
| AppointmentsApi.Stamp | appointments.php:204 | inserted records receive consecutive ids |
| AppointmentsApi.UpdateRows | appointments.php:256-264 | the update rewrites the four fields of the row with that id and keeps its source |
| AppointmentsApi.RemoveId | appointments.php:286-287 | the delete removes exactly the rows with that id |
| AppointmentsApi.RemoveIdDistinct | appointments.php:286-287 | deleting keeps ids distinct |
| AppointmentsApi.CleanOldDistinct | appointments.php:57-61 | the cleanup keeps ids distinct |
| AppointmentsApi.UpdateRowsEffect | appointments.php:247-275 | updating a manual row keeps it manual, keeps ids distinct and stores the new values |
| AppointmentsApi.ImportedRowsAreProtected | appointments.php:141-210 | an upload never makes an id manual that was not |
| AppointmentsApi.AppointmentTable.constructor | appointments.php:64-298 | an empty table with distinct ids |
| AppointmentsApi.AppointmentTable.Insert | appointments.php:204-205 | a 201 appends the stamped records; anything else changes nothing |
| AppointmentsApi.AppointmentTable.List | appointments.php:56-92 | cleans old rows, or keeps them all when the ignored clean-up DELETE fails, then returns the day's rows sorted by slot |
| AppointmentsApi.AppointmentTable.Upload | appointments.php:141-222 | no file is refused; an empty queue imports 0; a 201 imports all queued rows; a failed insert reports the error and stores nothing |
| AppointmentsApi.AppointmentTable.Create | appointments.php:225-244 | a 201 appends one manual row and returns its id; otherwise nothing changes |
| AppointmentsApi.AppointmentTable.Update | appointments.php:247-275 | a row that is not manual, or a failed manual-row check, is refused with nothing changed; a 200 applies `UpdateRows`; otherwise it reports an error |
| AppointmentsApi.AppointmentTable.Delete | appointments.php:278-298 | a row that is not manual, or a failed manual-row check, is refused with nothing changed; a 200 or 204 removes it; otherwise it reports an error |
| AppointmentsService.TrimOrNull | src/lib/appointmentsService.ts:2-3 | null or blank becomes null; anything else becomes its trimmed, non-empty text |
| AppointmentsService.TrimOrNullIdempotent | src/lib/appointmentsService.ts:2-3 | cleaning twice is cleaning once |
| AppointmentsService.SourceOrManual | src/lib/appointmentsService.ts:27 | the source defaults to "manual" and is never empty |
| AppointmentsService.CreateAppointment | src/lib/appointmentsService.ts:1-40 | no reference throws; otherwise a database error throws its message, else the cleaned row is written |
| AppointmentsService.CreateKeepsCleanRow | src/lib/appointmentsService.ts:1-40 | creating from a clean row writes that same row |
| AppointmentsService.UpdateAppointment | src/lib/appointmentsService.ts:42-62 | date and time are kept when absent; references, carrier and notes are always rewritten, cleaned; the source is kept |
| AppointmentsService.UpdateAgreesWithCreate | src/lib/appointmentsService.ts:1-62 | with a date and time, update writes what create would, except the source |
| AppointmentsService.DateOnlyUpdateClears | src/lib/appointmentsService.ts:48-55 | an update with only a date clears the references, carrier and notes |
| AppointmentsService.Selected | src/lib/appointmentsService.ts:80-91 | the query never returns more rows than the table has |
| AppointmentsService.SelectedEmpty | src/lib/appointmentsService.ts:80-96 | it returns nothing iff no row matches |
| AppointmentsService.CheckDuplicate | src/lib/appointmentsService.ts:74-97 | a duplicate is reported iff some row matches the date, the time and each truthy reference |
| AppointmentsService.FiltersNarrow | src/lib/appointmentsService.ts:86-91 | dropping a filter keeps a duplicate; an empty reference is no filter |
| AppointmentsService.CreatedIsDuplicate | src/lib/appointmentsService.ts:1-97 | a created row is then found as a duplicate of itself |
| DriverCheckInForm.Cleaned | src/components/DriverCheckInForm.tsx:52 | cleaning removes white space and never lengthens |
| DriverCheckInForm.MatchesAnyPattern | src/components/DriverCheckInForm.tsx:54-63 | one of the six patterns; `AcceptedByLength` states the accepted texts |
| DriverCheckInForm.ValidatePickupNumber | src/components/DriverCheckInForm.tsx:51-64 | an accepted number has 6, 7, 8, 10 or 14 characters once cleaned; a blank one is refused |
| DriverCheckInForm.RemoveWhitespaceOfBlank | src/components/DriverCheckInForm.tsx:52 | a blank input cleans to "" |
| DriverCheckInForm.AcceptedByLength | src/components/DriverCheckInForm.tsx:54-63 | exactly the five patterns are accepted |
| DriverCheckInForm.CleanedOfPlain | src/components/DriverCheckInForm.tsx:52 | a text without white space or lower case is already clean |
| DriverCheckInForm.ValidateCleaned | src/components/DriverCheckInForm.tsx:51-64 | validation gives the same answer on the cleaned text |
| DriverCheckInForm.SetFieldFrames | src/components/DriverCheckInForm.tsx:68-71 | a change sets its field and leaves the others |
| DriverCheckInForm.SetField | src/components/DriverCheckInForm.tsx:68-71 | the form after one change; `SetFieldFrames` states that only the named field changes |
| DriverCheckInForm.CheckInForm.constructor | src/components/DriverCheckInForm.tsx:26-41 | the form starts empty with no error |
| DriverCheckInForm.CheckInForm.HandleInputChange | src/components/DriverCheckInForm.tsx:66-80 | sets the field; the pickup hint appears exactly for a non-empty invalid pickup |
| DriverCheckInForm.CheckInForm.HandleSubmit | src/components/DriverCheckInForm.tsx:82-144 | an invalid pickup is refused; a failed insert shows its error; a success inserts a pending row and resets the form |
| DriverCheckIn.FormatMatches | src/DriverCheckIn.jsx:5-23 | the regular expression of each customer in `pickupFormats`; `IsValidPickup`, `CustomerFormatsWithinForm` and the two order-number lemmas state what it accepts |
| DriverCheckIn.IsValidPickup | src/DriverCheckIn.jsx:35-38 | a pickup is accepted only with a customer chosen, and only at the lengths the formats allow |
| DriverCheckIn.ValidPickupIsRaw | src/DriverCheckIn.jsx:35-38 | an accepted pickup holds no white space and no lower case |
| DriverCheckIn.CustomerFormatsWithinForm | src/DriverCheckIn.jsx:5-23 | every pickup accepted for Tate & Lyle, Primient or ADM is accepted by the form too |
| DriverCheckIn.FourDigitOrderNumber | src/DriverCheckIn.jsx:20 | the form's four-digit Solutions Direct number is refused here |
| DriverCheckIn.SixDigitOrderNumber | src/DriverCheckIn.jsx:20 | the six-digit number accepted here is refused by the form |
| DriverCheckIn.DriverCheckInPage.constructor | src/DriverCheckIn.jsx:25-33 | the page starts empty |
| DriverCheckIn.DriverCheckInPage.Submit | src/DriverCheckIn.jsx:40-79 | missing fields, then an invalid format, are refused; an insert error is shown; a success inserts a waiting row and clears the fields; every inserted row is valid |
| CsrDashboard.AllSlots | src/components/CSRDashboard.tsx:34-52 | 16 options |
| CsrDashboard.SlotAtIndex | src/components/CSRDashboard.tsx:36-43 | option 2·(hour−8)+k is the slot at hour:30·k |
| CsrDashboard.GenerateTimeSlots | src/components/CSRDashboard.tsx:34-52 | the loop produces `AllSlots` |
| CsrDashboard.Display | src/components/CSRDashboard.tsx:34-52 | the displayed label ends in " AM" for hours before noon and " PM" from noon on |
| CsrDashboard.SlotValues | src/components/CSRDashboard.tsx:34-52 | the options are 08:00 to 15:30 in half hours, the same as slots 4 to 19 of `TIME_SLOTS` |
| CsrDashboard.SlotOrder | src/components/CSRDashboard.tsx:34-52 | options are 30 minutes apart and increasing; the first eight are before noon |
| CsrDashboard.JsRem | src/components/CSRDashboard.tsx:196 | JavaScript `%`: the sign of the dividend |
| CsrDashboard.FormatDwell | src/components/CSRDashboard.tsx:194-202 | under an hour gives "Nm"; otherwise "Hh Mm" with M < 60 |
| CsrDashboard.FormatDwellInjective | src/components/CSRDashboard.tsx:194-202 | different non-negative dwell times display differently |
| CsrDashboard.FormatDwellJustNegative | src/components/CSRDashboard.tsx:195-201 | a negative dwell under an hour shows "-1h -Nm" |
| CsrDashboard.ColorOf | src/components/CSRDashboard.tsx:204-211 | green under 60 minutes, red from 120 on |
| CsrDashboard.ColorMonotone | src/components/CSRDashboard.tsx:204-211 | a longer dwell is never a milder colour |
| CsrDashboard.IsEarlyArrival | src/components/CSRDashboard.tsx:181-186 | no appointment is never early; otherwise early iff the check-in precedes it |
| CsrDashboard.CountStatus | src/components/CSRDashboard.tsx:213-218 | a count never exceeds the check-ins |
| CsrDashboard.StatsCoverAllButDeparted | src/components/CSRDashboard.tsx:213-218 | the four counters plus the departed check-ins add up to all check-ins |
| CsrDashboard.StatsOf | src/components/CSRDashboard.tsx:213-218 | the four counters, one per status; `StatsCoverAllButDeparted` states what they cover |
| CsrDashboard.AppointmentDateTime | src/components/CSRDashboard.tsx:147-151 | no slot gives ""; otherwise today "T" slot ":00" |
| CsrDashboard.AppointmentDateTimeParts | src/components/CSRDashboard.tsx:147-151 | that string has the date, "T", the slot and ":00" at fixed places |
| CsrDashboard.AssignRows | src/components/CSRDashboard.tsx:153-161 | only the selected check-in changes: assigned, with the dock, the time and the notes (or its old notes) |
| CsrDashboard.Assign | src/components/CSRDashboard.tsx:153-161 | the updated check-in is assigned, with the dock, the time and the notes (or its old notes), and every other field unchanged |
| CsrDashboard.AssignCountsOne | src/components/CSRDashboard.tsx:153-161 | the assigned count grows by one unless the check-in was already assigned |
| CsrDashboard.Dashboard.constructor | src/components/CSRDashboard.tsx:14-20 | no check-in selected, the dialog's fields empty |
| CsrDashboard.Dashboard.AssignDock | src/components/CSRDashboard.tsx:137-174 | without a selection or dock nothing happens; a failed write changes nothing; a success assigns the check-in and resets the dialog |
| DailyLog.DaysSplit | src/components/DailyLog.tsx:30-34 | the days before and from a month add up to the year |
| DailyLog.YearAndDay | src/components/DailyLog.tsx:24-34 | the day of the year is within the year |
| DailyLog.YearAndDayStart | src/components/DailyLog.tsx:24-34 | the year and day found name the given day |
| DailyLog.YearStartStep | src/components/DailyLog.tsx:24-34 | each year starts where the previous one ends |
| DailyLog.MonthAndDay | src/components/DailyLog.tsx:30-34 | the month and day are valid and name the day of the year |
| DailyLog.CivilDate | src/components/DailyLog.tsx:30-34 | every day number gives a valid calendar date |
| DailyLog.CivilDateRoundTrip | src/components/DailyLog.tsx:30-34 | a date's day number is the day it was computed from |
| DailyLog.CivilDateInjective | src/components/DailyLog.tsx:30-34 | different days give different dates |
| DailyLog.UtcMinuteOfDay | src/components/DailyLog.tsx:27-28 | a minute of the day is below 1440 |
| DailyLog.FormatLogTimeShift | src/components/DailyLog.tsx:13-36 | the time shown is a valid "HH:MM" five hours behind UTC |
| DailyLog.EstClock | src/components/DailyLog.tsx:13-36 | the time of day of an instant on a clock five hours behind UTC is a valid "HH:MM" |
| DailyLog.FormatLogTime | src/components/DailyLog.tsx:13-36 | for a valid instant the text ends in a valid "HH:MM", and is exactly that time when no date is asked for |
| DailyLog.FormatLogTimePeriodic | src/components/DailyLog.tsx:18-28 | instants a whole number of days apart show the same time |
| DailyLog.FormatLogTimeWithDate | src/components/DailyLog.tsx:30-36 | with the date: "MM/DD HH:MM" of the UTC−5 calendar day |
| DailyLog.CurrentDateIsEasternDate | src/components/DailyLog.tsx:76-83 | the browser's offset cancels: today's date is the UTC−5 date whatever the browser zone |
| DailyLog.CurrentDate | src/components/DailyLog.tsx:76-83 | the browser-side computation of today's date; `CurrentDateIsEasternDate` states its value |
| DailyLog.DateStringShape | src/components/DailyLog.tsx:79-82 | for four-digit years, "YYYY-MM-DD" with the year, month and day |
| SendSms.OrDefault | src/app/api/send-sms/route.ts:22-27 | a non-empty value is kept; an empty one becomes the default |
| SendSms.DockLabel | src/app/api/send-sms/route.ts:24 | "the Ramp" exactly for "Ramp"; otherwise "Dock " and the number |
| SendSms.Message | src/app/api/send-sms/route.ts:21-30 | trimming the template leaves its eight lines joined by line breaks, trimmed |
| SendSms.MessageSplitsIntoLines | src/app/api/send-sms/route.ts:21-30 | with no line break in the values, the message splits back into its eight lines, the third naming the dock |
| SendSms.MessageLines | src/app/api/send-sms/route.ts:21-30 | the template has eight lines |
| SendSms.Template | src/app/api/send-sms/route.ts:21-30 | the template literal: its lines framed by the opening line break and the closing indentation; `Message` states what trimming leaves |
| SendSms.Post | src/app/api/send-sms/route.ts:14-47 | 400 iff the phone or dock is missing, with no message sent; otherwise the message goes to the phone, and the result succeeds iff the send did: 200 with its id, or 500 with the send's error message |

## Left out

- The Supabase, PHP/cURL and Twilio calls are not modelled as I/O. Where the model covers a call's failure, the call becomes a parameter: the status code, the error, a success flag or the rows it returns. The failures left out are listed below.
- Real-time subscriptions, `useEffect` scheduling and timers are left out. This includes the success banners that clear after a delay and the one-minute clock refresh.
- Loading flags between `await`s are left out, except where a handler's end state sets them.
- Authentication, routing and logout are left out.
- Console logging and every piece of markup, colour class and icon are left out.
- `toUpperCase` and `toLowerCase` are modelled on ASCII letters only.
- White space is the JavaScript set, as `Text.IsWhitespace` lists it.
- Strings compare by code point. The database's collation is not modelled.
- AppointmentsApi.AppointmentTable.List: the date is always a parameter. The default to today when `date` is absent from the query string is not modelled, and the same holds for `Counts`.
- The PHP `list` and `counts` endpoints are modelled on a successful query. A failed `list` or `counts` query only changes the message it echoes, so those failures are not modelled. The failures of the `find` queries, of the `list` clean-up and of the manual-row check of `update` and `delete` are modelled.
- AppointmentsService.CheckDuplicate: the query is taken to succeed. A failed query throws its error to the caller, and the model has no such case.
- DockStatus.ActiveRows: the query's `order('dock_number').order('check_in_time')` is not modelled. The table is taken to arrive in that order, so each dock's orders come out in table order.
- The endpoint's "Invalid request" fallback is not modelled.
- AppointmentsApi.SortBySlot: the model states that the result is sorted and a permutation. It does not model `usort`'s tie order, or the database's `order=` pre-ordering that precedes it.
- Dates in `appointments.php` are day numbers.
- The Excel conversion (`excelToDateTimeObject`, `strtotime`, `date('H:i')`) is left out. Each sheet row carries the already converted date and "H:i" time.
- AppointmentsApi.Queued: the duplicate-check query of the upload is taken to succeed. A failed check skips the row in the source, and the model has no such case.
- DockStatus: the block list is a map from dock number to reason. It stands for the parsed JSON of `localStorage`. An unreadable store is left out.
- DailyLog: ISO string parsing is left out. An instant is a number of milliseconds, and `None` stands for a string that does not parse. Such a string shows "NaN" in each field rather than throwing, so the `catch` branch is not modelled.
- DailyLog: the browser time-zone offset is taken to be the same at the two instants `getCurrentDateInIndianapolis` uses.
- `date-fns` and `date-fns-tz` formatting is left out, except the "h:mm a" display the dashboard builds.
- DailyLog.DateStringShape: states the "YYYY-MM-DD" layout only for four-digit years. The source does not pad the year.
- The hint and example texts attached to `pickupFormats` are left out.
- DriverCheckIn: `Number(trailer)` is kept as the text typed.
- DriverCheckIn: a customer value outside the select's four options is not modelled.
- CSRDashboard `updateStatus` and the fetching of the day's check-ins are left out, as are the other pages and routes.
- SendSms: the request body is taken as already parsed, with "" for an absent or falsy property.
- SendSms: the template is stated as its eight lines joined by line breaks, not as one literal.
- AppointmentParser.NormalizeTimeAsWritten: states only the shape of its result. Its exact value on each input form is stated by the rule lemmas: `WorkIn`, `FourDigitTime`, `ColonTime`, `MeridiemTime`, `SlotNameTime`, and `NoFormIsNone` for text matching no form.
- ParseAppointmentsJson: every array element is taken to be an object whose properties are strings or absent. In the source, a `null` element or a truthy non-string time makes `item.time` or `.trim()` throw inside the `try`, and the whole call returns the empty list. The model has no such items.
- AssignDock.Blocks: the block list is a plain map from dock number to reason. Keys that every JavaScript object inherits, such as "constructor" or "toString", read as truthy in the source, and they are not modelled.
- AppointmentsService: the database's generated columns (`id`, timestamps) are left out.

## Findings

The dialog and the parsers are modelled as written. Each corrected definition is stated beside them, with the intended property proved about it.

| source | as written | input that shows it | evidently intended | confidence | as-written member | corrected member |
|---|---|---|---|---|---|---|
| src/components/AssignDockModal.tsx:33-40 | the block and occupancy check runs on the text as typed, but the submit stores `dockNumber.trim()` | dock "12" blocked and " 12" typed: the check finds no block, and the submit writes "12" | check the trimmed number that will be stored | not executed | AssignDock.UntrimmedCheckWritesBlockedDock | AssignDock.TrimmedCheckGuardsWrite |
| src/lib/appointmentParser.ts:101-116 | the AM/PM branch checks only the hour, never the minutes, so both readers keep such a time | "8:75 AM" gives "08:75", while "8:75" is refused; a JSON item timed "8:75 AM" is stored at "08:75" | refuse minutes of 60 or more, as the 24-hour branches do | not executed | AppointmentParser.EightSeventyFive | AppointmentParser.StrictDropsBadMinutes |
