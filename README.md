# Drug assistance portal: enrollment, refill calendar, sign-in and patient details

This project models in Dafny the core of a patient portal for drug-assistance programs.

- **Sign-in** (`AuthContext`). A patient signs in by email. The first login of an account with no password stores the password given. After that the password must match. The signed-in id is remembered, and the session is restored from it at start-up.
- **Patient details** (`PatientDetails`). The page's render offers one control, the drug select (`src/pages/PatientDetails.tsx:322-327`), which calls `handleAddDrug`. The component also defines handlers for choosing and removing a clinic and a provider, removing the drug, updating the refill date and creating a drug; no control of this render calls them, and they are modelled as the component defines them. A clinic, a provider and a drug are each stored as the patient's single row in a link table (`user_clinics`, `user_providers`, `patient_drugs`). Choosing one replaces the row: all of the patient's rows are deleted, then one is inserted. The drug row copies the catalog prices and the refill date.
- **Program enrollment** (`EnrollmentLifecycle`, `ProgramEnrollmentPage`). Each program can have one enrollment row for the patient. The status column is `"enrolled"`, `"ongoing"` or `"completed"`, or null for a rejected program. The page draws the controls that change it. Completed rows show a cost summary and a refill schedule.
- **Cost summary** (`CostCalculator`).
  - The potential saving is the program's free-text monetary cap, cut down to `[0-9.]` and parsed as a decimal. It is 0 when nothing parses.
  - The out-of-pocket cost is the drug's yearly price minus that saving, never below 0.
- **Refill calendar** (`RefillCalendar`, `CalendarDates`). A month view moves one month at a time or jumps to today. Its grid has blank cells up to the first weekday, then one cell per day. The re-enrollment date, the refill date and today are highlighted, in that order of precedence.

How the model is built:

- Each page's handlers are pure transitions on a state datatype. The lemmas are proved about those transitions.
- The components themselves are classes (`EnrollmentPage`, `DetailsPage`, `AuthProvider`, `CalendarView`). Each handler method updates the fields in place and is proved equal to the transition that specifies it. `DetailsPage.HandleCreateDrug` is the one exception to following the code: it uses the corrected transition (see Left out and Findings).
- Every write to the data store is a boolean parameter (`ok`) that says whether the store accepted it. A failed write changes nothing, because the source catches the error and only logs it.
- Clock readings (`now`, `today`) are parameters.

Where the page's own text or controls promise more than its handlers do, the model follows the handlers:

- **Completion date.** The date inputs carry a `max` of today (`src/pages/ProgramEnrollment.tsx:331`, `:530`), but the handlers accept any non-empty date, and so does the model.
- **`updated_at`.** Only the updates set it (`:121-122`, `:150`). The inserts leave it to the store's default (`:85-91`, `:278-284`, `:339-346`, `:375-381`).
- **Terminal stages.** A rejected row's panel says it "cannot be changed" (`:480-484`), yet the page as written lets a rejected program be completed (see Findings).
- **Month navigation.** The buttons step one month back or forward (`src/components/RefillCalendar.tsx:27-33`). The `Date` constructor reads a year from 0 to 99 as 1900 to 1999, so navigation across year 99 jumps (`RefillCalendar.TwoDigitYearNavigation`).

## Model

| member | source | states |
|---|---|---|
| CalendarDates.DaysInMonth | src/components/RefillCalendar.tsx:12-14 | a month has 28 to 31 days: 29 exactly for February of a leap year, 28 exactly for February of a common year, 30 exactly for April, June, September and November |
| CalendarDates.JsYear | src/components/RefillCalendar.tsx:28 | the Date constructor reads a year 0..99 as 1900..1999 and any other year as itself |
| CalendarDates.MakeDay | src/components/RefillCalendar.tsx:13 | `new Date(y, m, d)` as a day number: on an in-range month it is the day number of (y, m, d); an out-of-range month carries into the year (also the constructor calls at lines 17, 28 and 32) |
| CalendarDates.WeekDay | src/components/RefillCalendar.tsx:17 | getDay lies in 0..6 |
| CalendarDates.NextDay | src/pages/ProgramEnrollment.tsx:197-198 | the day after a valid date is a valid date, rolling over month and year ends |
| CalendarDates.AddDays | src/pages/ProgramEnrollment.tsx:196-198 | setDate(getDate() + n) normalises to a valid date |
| CalendarDates.YearLength | src/components/RefillCalendar.tsx:12-18 | consecutive January firsts are exactly a year's length apart |
| CalendarDates.DayFromYearMonotone | src/components/RefillCalendar.tsx:12-18 | a later year starts no earlier than the end of an earlier one |
| CalendarDates.DayNumberWithinYear | src/components/RefillCalendar.tsx:12-18 | every valid date's day number lies within its own year |
| CalendarDates.DayNumberInjective | src/components/RefillCalendar.tsx:12-18 | distinct valid dates have distinct day numbers, so a day number names one date |
| CalendarDates.DayNumberOrdered | src/components/RefillCalendar.tsx:12-18 | a valid date in an earlier year, or in an earlier month of the same year, has a smaller day number |
| CalendarDates.MonthStartsAfterMonth | src/components/RefillCalendar.tsx:12-14 | a later month of a year starts no earlier than the day after an earlier month ends |
| CalendarDates.NextDayNumber | src/pages/ProgramEnrollment.tsx:197-198 | the day after d has d's day number plus one |
| CalendarDates.AddDaysNumber | src/pages/ProgramEnrollment.tsx:196-198 | adding n days adds exactly n to the day number |
| CalendarDates.MakeDayNormal | src/components/RefillCalendar.tsx:17 | the constructor's day arithmetic agrees with the day number on in-range fields |
| CalendarDates.DayZeroOfNextMonth | src/components/RefillCalendar.tsx:13 | day 0 of month m + 1 is the last day of month m, the only valid date with that day number |
| CalendarDates.FirstOfNextMonthWeekDay | src/components/RefillCalendar.tsx:17 | the first of the next month falls the month's length in weekdays later |
| CalendarDates.MonthLengthStep | src/components/RefillCalendar.tsx:13 | the constructor's day n of month m + 1 is its day n of month m plus month m's length, December running into January of the next year |
| CalendarDates.WeekDayShift | src/components/RefillCalendar.tsx:17 | moving k days moves the weekday by k modulo 7 |
| RefillCalendar.ViewOf | src/components/RefillCalendar.tsx:28 | the month shown after setting the date to new Date(y, m) is always a valid month view |
| RefillCalendar.ViewOfIsConstructedMonth | src/components/RefillCalendar.tsx:27-33 | the instant new Date(y, m) is the first day of the month ViewOf(y, m), and no other valid date |
| RefillCalendar.MonthAfter | src/components/RefillCalendar.tsx:31-33 | "next month" moves one month forward, December rolling over to January of the next year, outside two-digit years |
| RefillCalendar.MonthBefore | src/components/RefillCalendar.tsx:27-29 | "previous month" moves one month back, January rolling over to December of the previous year, outside two-digit years |
| RefillCalendar.TodayView | src/components/RefillCalendar.tsx:35-37 | "today" shows the month and year of today, whatever the day |
| RefillCalendar.DaysInViewMonth | src/components/RefillCalendar.tsx:12-14 | the grid has 28..31 days, the Gregorian length of the viewed month |
| RefillCalendar.DaysInViewMonthIsDayZero | src/components/RefillCalendar.tsx:13 | the drawn day count is getDate() of new Date(y, m + 1, 0), the last day of the viewed month |
| RefillCalendar.FirstDayOfMonth | src/components/RefillCalendar.tsx:16-18 | the number of leading blank cells is a weekday 0..6 |
| RefillCalendar.IsMarkedDay | src/components/RefillCalendar.tsx:39-66 | a day is marked for a date only when the view shows that date's month and year |
| RefillCalendar.DayHighlight | src/components/RefillCalendar.tsx:89-97 | a day shows re-enrollment iff the re-enrollment date falls on it; refill iff the refill date falls on it and the re-enrollment date does not; no colour iff none of today, the refill date and the re-enrollment date falls on it |
| RefillCalendar.Classify | src/components/RefillCalendar.tsx:89-97 | a cell shows re-enrollment iff it is the re-enrollment day; refill iff refill day and not re-enrollment; today iff today and neither; plain iff none |
| RefillCalendar.RenderCalendar | src/components/RefillCalendar.tsx:68-106 | the grid is FirstDayOfMonth blanks followed by exactly the days 1..DaysInViewMonth in order, each with its highlight |
| RefillCalendar.CalendarView.constructor | src/components/RefillCalendar.tsx:10 | the calendar opens on the month containing today |
| RefillCalendar.CalendarView.PreviousMonth | src/components/RefillCalendar.tsx:27-29 | the view becomes MonthBefore of the old view |
| RefillCalendar.CalendarView.NextMonth | src/components/RefillCalendar.tsx:31-33 | the view becomes MonthAfter of the old view |
| RefillCalendar.CalendarView.GoToToday | src/components/RefillCalendar.tsx:35-37 | the view becomes today's month |
| RefillCalendar.MonthsAfter | src/components/RefillCalendar.tsx:31-33 | any number of "next month" presses keeps a valid view |
| RefillCalendar.MonthsBefore | src/components/RefillCalendar.tsx:27-29 | any number of "previous month" presses keeps a valid view |
| RefillCalendar.ShiftStep | src/components/RefillCalendar.tsx:31-33 | the calendar shift by k + 1 months is one month after the shift by k |
| RefillCalendar.MonthsAfterShift | src/components/RefillCalendar.tsx:31-33 | n presses of "next month" move exactly n calendar months forward |
| RefillCalendar.MonthsBeforeShift | src/components/RefillCalendar.tsx:27-29 | n presses of "previous month" move exactly n calendar months back |
| RefillCalendar.BeforeAfterRoundTrip | src/components/RefillCalendar.tsx:27-33 | "next" then "previous" restores the view |
| RefillCalendar.AfterBeforeRoundTrip | src/components/RefillCalendar.tsx:27-33 | "previous" then "next" restores every view from February of year 100 on |
| RefillCalendar.MonthsRoundTrip | src/components/RefillCalendar.tsx:27-33 | n presses forward and n back restore the view |
| RefillCalendar.YearsAfter | src/components/RefillCalendar.tsx:31-33 | 12k presses forward show the same month k years later |
| RefillCalendar.TwoDigitYearNavigation | src/components/RefillCalendar.tsx:27-33 | back from January 100 shows December 99, but forward from December 99 shows January 2000 |
| RefillCalendar.LeapYearMonthLengths | src/components/RefillCalendar.tsx:12-14 | February has 29 days in 2024 and 2000, 28 in 2023 and 1900 |
| RefillCalendar.FirstDayOfMonthAfter | src/components/RefillCalendar.tsx:16-18 | the next month's first weekday is this month's first weekday plus its length, modulo 7 |
| RefillCalendar.FirstWeekDay1970 | src/components/RefillCalendar.tsx:16-18 | January 1970 starts on a Thursday |
| RefillCalendar.FirstWeekDay2000 | src/components/RefillCalendar.tsx:16-18 | January 2000 starts on a Saturday |
| RefillCalendar.FirstWeekDay2024 | src/components/RefillCalendar.tsx:16-18 | February 2024 starts on a Thursday |
| RefillCalendar.MarkedExactlyOnItsDay | src/components/RefillCalendar.tsx:39-66 | a date is marked on a cell iff the view is its month and the cell is its day, and that day is in the grid |
| RefillCalendar.ReEnrollmentWinsOnSharedDay | src/components/RefillCalendar.tsx:89-97 | a day that is today, the refill date and the re-enrollment date shows as re-enrollment |
| RefillCalendar.NullDateNeverMarks | src/components/RefillCalendar.tsx:48-66 | a null refill or re-enrollment date highlights nothing; only today remains |
| CostCalculator.StripNonNumeric | src/pages/ProgramEnrollment.tsx:177 | the cleaned cap holds only characters of [0-9.] and is no longer than the cap |
| CostCalculator.LeadingDigits | src/pages/ProgramEnrollment.tsx:178 | the count of leading digits: all before it are digits, the one at it is not |
| CostCalculator.AmountValue | src/pages/ProgramEnrollment.tsx:178 | a parsed amount is never negative |
| CostCalculator.PotentialSaving | src/pages/ProgramEnrollment.tsx:176-179 | the potential saving is never negative |
| CostCalculator.OutOfPocketCost | src/pages/ProgramEnrollment.tsx:181-187 | 0 without a drug record; otherwise at least the yearly price minus the saving, and equal to it or 0; never negative, and never above a non-negative yearly price |
| CostCalculator.DecimalString | src/pages/ProgramEnrollment.tsx:178 | a whole number's decimal form is a non-empty string of digits |
| CostCalculator.StripNonNumericAppend | src/pages/ProgramEnrollment.tsx:177 | cleaning a concatenation cleans each part |
| CostCalculator.StripIgnoresOtherChars | src/pages/ProgramEnrollment.tsx:177 | a "$", "," or other character outside [0-9.] has no effect wherever it stands |
| CostCalculator.StripKeepsNumeric | src/pages/ProgramEnrollment.tsx:177 | a cap already made of [0-9.] is left as it is |
| CostCalculator.PotentialSavingOfStripped | src/pages/ProgramEnrollment.tsx:176-179 | cleaning is idempotent: a cleaned cap has the same saving as the cap |
| CostCalculator.StripKeepsDigits | src/pages/ProgramEnrollment.tsx:177 | the cleaned cap has a digit iff the cap has one |
| CostCalculator.NoDigitNoParse | src/pages/ProgramEnrollment.tsx:178 | a string of points alone parses to NaN |
| CostCalculator.NoDigitsNoSaving | src/pages/ProgramEnrollment.tsx:176-179 | a cap without a digit gives a saving of 0 |
| CostCalculator.LeadingDigitsOfDigits | src/pages/ProgramEnrollment.tsx:178 | the leading digits of digits followed by a non-digit are exactly those digits |
| CostCalculator.AllNumericAppend | src/pages/ProgramEnrollment.tsx:177 | concatenating cleaned strings gives a cleaned string |
| CostCalculator.ParseDecimalAmount | src/pages/ProgramEnrollment.tsx:178 | "whole.frac" followed by anything from a second point on parses to whole + frac / 10^len(frac), so the rest is ignored |
| CostCalculator.ParseDecimalWhole | src/pages/ProgramEnrollment.tsx:178 | a string of digits parses to its value |
| CostCalculator.ParseDecimal | src/pages/ProgramEnrollment.tsx:178 | a string parses to nothing exactly when it is empty or starts with a point not followed by a digit |
| CostCalculator.ParseDecimalAnyInput | src/pages/ProgramEnrollment.tsx:178 | every [0-9.]* string that is not all digits is whole digits, a point, fraction digits and a rest that is empty or starts at a second point, and, unless whole and frac are both empty, parses to the value of whole.frac |
| CostCalculator.DecimalStringValue | src/pages/ProgramEnrollment.tsx:178 | the decimal form of n reads back as n |
| CostCalculator.WholeDollarCap | src/pages/ProgramEnrollment.tsx:176-179 | a cap written as a whole number n gives a saving of n |
| CostCalculator.CapCoversDrug | src/pages/ProgramEnrollment.tsx:176-187 | a cap of "$1,200.00" gives a saving of 1200, so a drug costing 1000 a year costs the patient 0 |
| CostCalculator.ParseTwelveHundred | src/pages/ProgramEnrollment.tsx:178 | "1200.00" parses to 1200 |
| CostCalculator.AmountTwelveHundred | src/pages/ProgramEnrollment.tsx:178 | the amount with whole part "1200" and fraction "00" is 1200 |
| CostCalculator.StripThousandsCap | src/pages/ProgramEnrollment.tsx:177 | "$1,200.00" cleans to "1200.00" |
| CostCalculator.StripDollarSign | src/pages/ProgramEnrollment.tsx:177 | the dollar sign is dropped |
| CostCalculator.StripThousandsComma | src/pages/ProgramEnrollment.tsx:177 | the thousands separator is dropped |
| CostCalculator.CapPartlyCoversDrug | src/pages/ProgramEnrollment.tsx:181-187 | a cap of "$300" leaves 700 of a 1000 yearly price to pay |
| EnrollmentLifecycle.StageOf | src/pages/ProgramEnrollment.tsx:398-488 | a null status means rejected, and "enrolled", "ongoing" and "completed" mean their stages, each iff |
| EnrollmentLifecycle.Insert | src/pages/ProgramEnrollment.tsx:85-91 | an insert succeeds iff the store accepts it and the program has no row yet (the store is taken to refuse a second row for a program); it then adds exactly that row and keeps every other (also the inserts at lines 278-284, 339-346 and 375-381) |
| EnrollmentLifecycle.StatusColumn | src/pages/ProgramEnrollment.tsx:119-122 | the status column written is null exactly for "rejected", and otherwise the status itself |
| EnrollmentLifecycle.NewRecordPanel | src/pages/ProgramEnrollment.tsx:243 | the controls for a program with no row are drawn only for an open program, and never together with the status buttons or a row's date picker |
| EnrollmentLifecycle.StatusPanel | src/pages/ProgramEnrollment.tsx:488 | the status buttons are drawn only for an enrolled or ongoing row of an open program |
| EnrollmentLifecycle.RowDatePicker | src/pages/ProgramEnrollment.tsx:519 | the row's date picker, as written, is drawn whenever it is open for an open program that has a row, whatever the row's stage |
| EnrollmentLifecycle.RowDatePickerIntended | src/pages/ProgramEnrollment.tsx:519 | the corrected picker is drawn only where the written one is, and never for a completed or rejected row |
| EnrollmentLifecycle.PanelOffers | src/pages/ProgramEnrollment.tsx:243-545 | the controls of a program's panel; a closed program's panel offers only the cost summary and the row picker's controls |
| EnrollmentLifecycle.OfferedWith | src/pages/ProgramEnrollment.tsx:243-545 | any program of the list can be clicked, and a panel control only on the selected program |
| EnrollmentLifecycle.Offered | src/pages/ProgramEnrollment.tsx:243-545 | the controls as written; a closed program offers only its selection and its cost summary |
| EnrollmentLifecycle.OfferedIntended | src/pages/ProgramEnrollment.tsx:243-545 | the corrected page offers no control the written page does not |
| EnrollmentLifecycle.DummyRefillDateValue | src/pages/ProgramEnrollment.tsx:193-200 | the schedule's refill date is the drug's own when it has one, and otherwise the valid date fifteen days after today |
| EnrollmentLifecycle.EnrollmentForIsOwnRow | src/pages/ProgramEnrollment.tsx:172-174 | a program has a row found iff it has a row, and the row found is that program's |
| EnrollmentLifecycle.EnrollmentFor | src/pages/ProgramEnrollment.tsx:172-174 | a row is found iff the program has one, and the row found is the table's row for that program |
| EnrollmentLifecycle.DummyRefillDate | src/pages/ProgramEnrollment.tsx:193-200 | when the drug has no stored refill date, the fallback date is a valid calendar date |
| EnrollmentLifecycle.SelectProgram | src/pages/ProgramEnrollment.tsx:72-79 | selecting a program changes no enrollment row and not the drug record |
| EnrollmentLifecycle.ToggleEnrollNow | src/pages/ProgramEnrollment.tsx:250 | the Enroll Now box changes no enrollment row and not the drug record |
| EnrollmentLifecycle.EnrollNow | src/pages/ProgramEnrollment.tsx:81-105 | Proceed to Enrollment can only add the program's own row: rows are never deleted and an existing row is never altered |
| EnrollmentLifecycle.ClickOngoing | src/pages/ProgramEnrollment.tsx:270-297 | ticking Ongoing can only add the program's own row: rows are never deleted and an existing row is never altered |
| EnrollmentLifecycle.ClickRejected | src/pages/ProgramEnrollment.tsx:367-394 | ticking Rejected can only add the program's own row: rows are never deleted and an existing row is never altered |
| EnrollmentLifecycle.ClickCompleted | src/pages/ProgramEnrollment.tsx:304-312 | ticking Completed changes no enrollment row and not the drug record |
| EnrollmentLifecycle.EnterCompletionDate | src/pages/ProgramEnrollment.tsx:332 | typing a completion date changes no enrollment row and not the drug record |
| EnrollmentLifecycle.SubmitNewCompletion | src/pages/ProgramEnrollment.tsx:334-363 | Submit under Completed can only add the program's own row: rows are never deleted and an existing row is never altered |
| EnrollmentLifecycle.StatusChange | src/pages/ProgramEnrollment.tsx:107-136 | a status button keeps the set of programs with rows and changes no other program's row |
| EnrollmentLifecycle.CompletionSubmit | src/pages/ProgramEnrollment.tsx:138-163 | submitting a completion date keeps the set of programs with rows and changes no other program's row |
| EnrollmentLifecycle.ToggleCostSummary | src/pages/ProgramEnrollment.tsx:165-170 | toggling a cost summary changes no enrollment row and not the drug record |
| EnrollmentLifecycle.NewRecordNeedsOpenProgram | src/pages/ProgramEnrollment.tsx:243 | with no row, Proceed, Ongoing, Rejected and Submit are drawn only for an open program |
| EnrollmentLifecycle.EnrollNowCreatesRow | src/pages/ProgramEnrollment.tsx:81-105 | Proceed to Enrollment inserts exactly one "enrolled" row for the program and changes nothing else |
| EnrollmentLifecycle.OngoingCreatesRow | src/pages/ProgramEnrollment.tsx:270-297 | ticking Ongoing inserts exactly one "ongoing" row |
| EnrollmentLifecycle.RejectedCreatesRow | src/pages/ProgramEnrollment.tsx:367-394 | ticking Rejected inserts exactly one row with a null status, whose stage is rejected |
| EnrollmentLifecycle.SubmitNewCompletionCreatesRow | src/pages/ProgramEnrollment.tsx:334-363 | Submit under Completed does nothing without a date; with one it inserts a "completed" row with that date and clears the form |
| EnrollmentLifecycle.FailedInsertChangesNothing | src/pages/ProgramEnrollment.tsx:270-394 | an insert the store refuses, including a second row for the same program, changes nothing: for Ongoing, Submit and Rejected here, and for Proceed (lines 81-105) |
| EnrollmentLifecycle.StatusChangeEffect | src/pages/ProgramEnrollment.tsx:107-136 | no user or no row: no change; "completed" only opens the date picker; any other status is written (null for "rejected") with updated_at now, keeping the completion date; no other row changes |
| EnrollmentLifecycle.StatusChangeIdempotent | src/pages/ProgramEnrollment.tsx:107-136 | marking a row ongoing a second time at the same instant changes nothing |
| EnrollmentLifecycle.CompletionSubmitEffect | src/pages/ProgramEnrollment.tsx:138-163 | with a user, a date and a row, the row becomes completed on exactly that date with updated_at now, and the form is cleared; otherwise nothing changes |
| EnrollmentLifecycle.SelectProgramToggles | src/pages/ProgramEnrollment.tsx:72-79 | selecting opens the program iff it was not open, and selecting twice restores an empty or own selection; rows, drug and summaries are kept and the form is cleared |
| EnrollmentLifecycle.ToggleCostSummaryFlipsOne | src/pages/ProgramEnrollment.tsx:165-170 | the program's summary flag flips, every other flag is kept, and nothing else changes |
| EnrollmentLifecycle.ToggleCostSummaryTwice | src/pages/ProgramEnrollment.tsx:165-170 | toggling twice shows every summary as before |
| EnrollmentLifecycle.StatusButtonsOnlyWhenUpdatable | src/pages/ProgramEnrollment.tsx:488 | status buttons are drawn only for an enrolled or ongoing row of an open program |
| EnrollmentLifecycle.TerminalRowIsFrozen | src/pages/ProgramEnrollment.tsx:480-545 | with the row's date picker confined to updatable rows, no offered control changes any row once the program is completed or rejected |
| EnrollmentLifecycle.StepFollowsLifecycle | src/pages/ProgramEnrollment.tsx:243-545 | with that picker, each offered control either leaves the rows alone or changes only the program's own row: from no row to any stage, or from enrolled or ongoing to ongoing, completed or rejected |
| EnrollmentLifecycle.RejectedBecomesCompleted | src/pages/ProgramEnrollment.tsx:300-545 | as written, Completed, then Rejected, then a date and Submit turn a rejected program into a completed one, each control being drawn when used |
| EnrollmentLifecycle.EnrollOngoingCompleted | src/pages/ProgramEnrollment.tsx:243-545 | enroll, mark ongoing, then complete on a date: each control is drawn when used, and the final row is completed on that date |
| EnrollmentLifecycle.EnrollFromNothing | src/pages/ProgramEnrollment.tsx:243-545 | selecting an open program with no row, ticking Enroll Now and pressing Proceed uses only drawn controls and inserts an "enrolled" row |
| EnrollmentLifecycle.OngoingThenCompleted | src/pages/ProgramEnrollment.tsx:243-545 | an enrolled row marked ongoing and then completed on a date uses only drawn controls and ends completed on that date |
| ProgramEnrollmentPage.EnrollmentPage.constructor | src/pages/ProgramEnrollment.tsx:20-31 | the loaded page holds the patient's rows and drug record, with nothing selected and an empty form; rows filed under their own program ids are required, and every handler keeps them so |
| ProgramEnrollmentPage.EnrollmentPage.HandleProgramSelect | src/pages/ProgramEnrollment.tsx:72-79 | the new state is SelectProgram of the old |
| ProgramEnrollmentPage.EnrollmentPage.ToggleEnrollNowBox | src/pages/ProgramEnrollment.tsx:250 | the Enroll Now box flips |
| ProgramEnrollmentPage.EnrollmentPage.HandleEnrollNow | src/pages/ProgramEnrollment.tsx:81-105 | the new state is EnrollNow of the old |
| ProgramEnrollmentPage.EnrollmentPage.HandleOngoingBox | src/pages/ProgramEnrollment.tsx:270-297 | the new state is ClickOngoing of the old |
| ProgramEnrollmentPage.EnrollmentPage.HandleRejectedBox | src/pages/ProgramEnrollment.tsx:367-394 | the new state is ClickRejected of the old |
| ProgramEnrollmentPage.EnrollmentPage.HandleCompletedBox | src/pages/ProgramEnrollment.tsx:304-312 | the new state is ClickCompleted of the old |
| ProgramEnrollmentPage.EnrollmentPage.HandleDateInput | src/pages/ProgramEnrollment.tsx:332 | the entered date is stored |
| ProgramEnrollmentPage.EnrollmentPage.HandleSubmitNewCompletion | src/pages/ProgramEnrollment.tsx:336-355 | the new state is SubmitNewCompletion of the old |
| ProgramEnrollmentPage.EnrollmentPage.HandleStatusChange | src/pages/ProgramEnrollment.tsx:107-136 | the new state is StatusChange of the old |
| ProgramEnrollmentPage.EnrollmentPage.HandleCompletionSubmit | src/pages/ProgramEnrollment.tsx:138-163 | the new state is CompletionSubmit of the old |
| ProgramEnrollmentPage.EnrollmentPage.HandleToggleCostSummary | src/pages/ProgramEnrollment.tsx:165-170 | the new state is ToggleCostSummary of the old |
| AuthContext.RowsWhere | src/context/AuthContext.tsx:45-49 | the rows selected by email (here) or by id (lines 28-32) are exactly the users holding that value in that column |
| AuthContext.MaybeSingle | src/context/AuthContext.tsx:45-55 | one row iff the query succeeds with exactly one match, and then it is that match; no row iff it succeeds with none (also the lookup at line 32) |
| AuthContext.RowsWhereCount | src/context/AuthContext.tsx:45-49 | the selection holds each matching row as many times as the table does, and no other row, so its length is the number of matches |
| AuthContext.TwoMatchesFail | src/context/AuthContext.tsx:45-55 | two rows holding the value, even equal ones, make maybeSingle fail |
| AuthContext.HasStoredId | src/context/AuthContext.tsx:18-19 | a stored id counts exactly when it is neither null nor the empty string, the falsy strings of the truthiness test |
| AuthContext.SetPasswordById | src/context/AuthContext.tsx:58-61 | the rows with the id get the password, and every other row is kept in place |
| AuthContext.Logout | src/context/AuthContext.tsx:84-87 | logout leaves no user and no stored id, and keeps the table and the loading flag |
| AuthContext.Login | src/context/AuthContext.tsx:43-82 | a login succeeds iff it reports no error, a failed login changes nothing, and loading is kept |
| AuthContext.Restore | src/context/AuthContext.tsx:17-41 | start-up always ends loading and keeps the table and the stored id; it signs a user in only when the stored id is non-empty, and then the user with that id |
| AuthContext.UnknownEmailFails | src/context/AuthContext.tsx:53-55 | an email with no row fails with "User not found" and changes nothing |
| AuthContext.NoRowsWhere | src/context/AuthContext.tsx:45-49 | a value no user holds in the column selects no row |
| AuthContext.FirstLoginClaimsPassword | src/context/AuthContext.tsx:57-68 | an account without a password takes the one given, is signed in with it, its id is stored, and the login succeeds |
| AuthContext.MatchingPasswordSignsIn | src/context/AuthContext.tsx:71-74 | a matching password signs the account in and stores its id, changing no row |
| AuthContext.WrongPasswordFails | src/context/AuthContext.tsx:75-77 | any other password fails with "Invalid password" and changes nothing |
| AuthContext.StoreErrorFails | src/context/AuthContext.tsx:51-81 | a failed lookup, several rows for one email, or a failed claim gives "Login failed" and changes nothing |
| AuthContext.LoginSessionMatchesResult | src/context/AuthContext.tsx:43-82 | success iff no error; a success signs in a user with that email and password and stores its id; a failure changes nothing; loading is never touched |
| AuthContext.RowsWithEmailOfSetPassword | src/context/AuthContext.tsx:45-61 | setting a password by id and then selecting by email equals selecting and then setting |
| AuthContext.SetPasswordAppend | src/context/AuthContext.tsx:58-61 | setting a password over two parts of the table sets it over each |
| AuthContext.ClaimThenSignInAgain | src/context/AuthContext.tsx:57-77 | after a first login claims an account, the same password signs in again and any other fails with "Invalid password" |
| AuthContext.LoginKeepsClaimedPasswords | src/context/AuthContext.tsx:57-68 | login keeps every id, email and already-set password, and keeps ids unique |
| AuthContext.SetPasswordKeepsClaimed | src/context/AuthContext.tsx:58-61 | the password update by a unique id changes only that unclaimed row: every id and email and every set password stays |
| AuthContext.RestoreWithoutStoredId | src/context/AuthContext.tsx:17-24 | without a stored id, start-up only ends loading |
| AuthContext.RestoreStoredUser | src/context/AuthContext.tsx:17-41 | a stored id of an existing user restores that user, and loading ends |
| AuthContext.RowsWithOwnId | src/context/AuthContext.tsx:28-32 | with unique ids, a user's id selects exactly that user |
| AuthContext.LogoutAfterLogin | src/context/AuthContext.tsx:84-87 | logging out after any login clears the session and keeps the table as the login left it |
| AuthContext.AuthProvider.constructor | src/context/AuthContext.tsx:14-15 | the provider starts with no user and loading |
| AuthContext.AuthProvider.RestoreSession | src/context/AuthContext.tsx:17-41 | the new state is Restore of the old |
| AuthContext.AuthProvider.DoLogin | src/context/AuthContext.tsx:43-82 | the new state and the result are those of Login on the old state |
| AuthContext.AuthProvider.DoLogout | src/context/AuthContext.tsx:84-87 | the new state is Logout of the old |
| Tables.RowsFor | src/pages/PatientDetails.tsx:39-41 | the rows selected for a user are exactly that user's rows |
| Tables.RowsForCount | src/pages/PatientDetails.tsx:39-41 | the selection holds each of the user's rows as many times as the table does, and no other row |
| Tables.DeleteFor | src/pages/PatientDetails.tsx:66-69 | after deleting a user's rows, exactly the other users' rows remain |
| Tables.DeleteKey | src/pages/PatientDetails.tsx:97-101 | after deleting a user's rows with a key, exactly the other rows remain |
| Tables.RowsForAppend | src/pages/PatientDetails.tsx:39-41 | selecting from a concatenation selects from each part |
| Tables.RowsForDeleteFor | src/pages/PatientDetails.tsx:66-69 | after the delete the user has no row, and every other user keeps their rows |
| Tables.RowsForDeleteKey | src/pages/PatientDetails.tsx:97-101 | a delete by key never adds rows for anyone and leaves other users' rows alone |
| Tables.Replace | src/pages/PatientDetails.tsx:66-73 | delete-then-insert leaves the user exactly the new row and every other user their rows |
| Tables.ReplaceKeepsAtMostOne | src/pages/PatientDetails.tsx:66-73 | a replace keeps at most one row per user |
| Tables.DeleteKeepsAtMostOne | src/pages/PatientDetails.tsx:93-108 | deletes keep at most one row per user |
| Tables.TwoRowsBreakAtMostOne | src/pages/PatientDetails.tsx:93-108 | two rows of one user, even equal ones, break the one-row-per-user invariant |
| PatientDetails.FindDrug | src/pages/PatientDetails.tsx:200 | a drug found is in the catalog with that id, and none found means no drug has the id |
| PatientDetails.FirstLinkedProvider | src/pages/PatientDetails.tsx:78-83 | a provider found is linked to the clinic, and none found means the clinic has no link |
| PatientDetails.Present | src/pages/PatientDetails.tsx:94 | a selection is present exactly when it is neither null nor the empty string, the falsy strings of the source's tests (also lines 131, 222 and 240) |
| PatientDetails.IsSpace | src/pages/PatientDetails.tsx:256 | the characters `trim` removes that the model knows: ASCII whitespace, no-break space and the byte-order mark |
| PatientDetails.TrimStart | src/pages/PatientDetails.tsx:256 | the result is the suffix of the name left after removing leading whitespace only: it starts with no whitespace and every character removed is whitespace |
| PatientDetails.TrimEnd | src/pages/PatientDetails.tsx:256 | the result is the prefix of the name left after removing trailing whitespace only: it ends with no whitespace and every character removed is whitespace |
| PatientDetails.Trim | src/pages/PatientDetails.tsx:256 | the trimmed name neither starts nor ends with whitespace |
| PatientDetails.TrimEmptyIffBlank | src/pages/PatientDetails.tsx:256 | a name trims to the empty string iff every character of it is whitespace, so exactly the blank names are refused |
| PatientDetails.SetRefillDate | src/pages/PatientDetails.tsx:243-247 | only the patient's rows for the drug take the new refill date, and every other row is kept in place |
| PatientDetails.AddProvider | src/pages/PatientDetails.tsx:110-128 | choosing a provider changes neither the user, the catalog, the clinic links, the clinic rows, the drug rows nor the drug selection |
| PatientDetails.AddClinic | src/pages/PatientDetails.tsx:62-91 | choosing a clinic changes neither the user, the catalog, the clinic links, the drug rows nor the drug selection |
| PatientDetails.RemoveClinic | src/pages/PatientDetails.tsx:93-108 | removing the clinic changes neither the user, the catalog, the links, the provider rows and selection nor the drug rows |
| PatientDetails.RemoveProvider | src/pages/PatientDetails.tsx:130-145 | removing the provider changes neither the user, the catalog, the links, the clinic rows and selection nor the drug rows |
| PatientDetails.AddDrugWith | src/pages/PatientDetails.tsx:191-219 | choosing a drug changes no clinic or provider row and not the entered date; the selection changes only to the chosen id, and only when the catalog searched holds it |
| PatientDetails.AddDrug | src/pages/PatientDetails.tsx:191-219 | as AddDrugWith, searching the page's own catalog |
| PatientDetails.RemoveDrug | src/pages/PatientDetails.tsx:221-237 | removing the drug changes no clinic or provider row, and every drug row left was there before |
| PatientDetails.UpdateRefillDate | src/pages/PatientDetails.tsx:239-253 | the refill update changes no clinic or provider row and not the selection, and keeps the number of drug rows |
| PatientDetails.NewCatalogDrug | src/pages/PatientDetails.tsx:259-266 | the inserted drug has the id the store assigns and zero prices, and its name is empty iff the entered name is blank |
| PatientDetails.CreateDrugAsWritten | src/pages/PatientDetails.tsx:255-280 | as written: a blank name changes nothing; otherwise the catalog is kept or gains exactly the new drug with the input cleared; the user, links, clinic and provider rows are kept |
| PatientDetails.CreateDrug | src/pages/PatientDetails.tsx:255-280 | as intended, the same frame: a blank name changes nothing; otherwise the catalog is kept or gains exactly the new drug with the input cleared |
| PatientDetails.FindDrugAppend | src/pages/PatientDetails.tsx:200 | a drug appended under a fresh id, as at line 272, is found |
| PatientDetails.AddDrugReplacesRow | src/pages/PatientDetails.tsx:191-219 | choosing a catalog drug leaves the patient exactly one drug row with its prices and the entered refill date (null when empty), selects it, and leaves other patients alone |
| PatientDetails.AddUnknownDrugDeletesRow | src/pages/PatientDetails.tsx:195-201 | an id missing from the catalog still deletes the patient's drug row, and inserts and selects nothing |
| PatientDetails.RemoveDrugEffect | src/pages/PatientDetails.tsx:221-237 | without a selection nothing changes; otherwise exactly the patient's rows for the selected drug go, and the selection and the date are cleared |
| PatientDetails.UpdateRefillDateEffect | src/pages/PatientDetails.tsx:239-253 | without a drug or a date nothing changes; otherwise only the refill date of the patient's rows for that drug changes |
| PatientDetails.AddClinicEffect | src/pages/PatientDetails.tsx:62-91 | choosing a clinic leaves the patient exactly that clinic; a linked provider becomes their only provider, and without one the providers are kept; every other patient's clinic and provider rows are unchanged |
| PatientDetails.AddProviderEffect | src/pages/PatientDetails.tsx:110-128 | choosing a provider leaves the patient exactly that provider and other patients alone |
| PatientDetails.RemoveClinicProviderEffect | src/pages/PatientDetails.tsx:93-145 | removing without a selection changes nothing; otherwise the selected row goes and the selection is cleared, nothing else changing |
| PatientDetails.HandlersKeepValid | src/pages/PatientDetails.tsx:62-280 | every handler keeps each link table at one row per patient |
| PatientDetails.AddClinicKeepsValid | src/pages/PatientDetails.tsx:62-91 | choosing a clinic keeps one row per patient |
| PatientDetails.RemovalsKeepValid | src/pages/PatientDetails.tsx:93-253 | the removals and the refill update keep one row per patient |
| PatientDetails.AddProviderKeepsValid | src/pages/PatientDetails.tsx:110-128 | choosing a provider keeps one row per patient |
| PatientDetails.AddDrugKeepsValid | src/pages/PatientDetails.tsx:191-219 | choosing a drug keeps one row per patient |
| PatientDetails.SetRefillDateRows | src/pages/PatientDetails.tsx:243-247 | the refill update changes no patient's row count |
| PatientDetails.SetRefillDateKeepsAtMostOne | src/pages/PatientDetails.tsx:243-247 | the refill update keeps one row per patient |
| PatientDetails.CreateDrugLosesSelection | src/pages/PatientDetails.tsx:255-280 | as written, a created drug joins the catalog but the patient's drug row is deleted and nothing is selected |
| PatientDetails.CreateDrugSelectsIt | src/pages/PatientDetails.tsx:255-280 | as intended, a created drug joins the catalog with zero prices and becomes the patient's only drug row and selection, and the input closes |
| PatientDetails.DetailsPage.constructor | src/pages/PatientDetails.tsx:11-60 | the page after loading: the catalog, the link tables and the patient's selections as loaded, the new-drug input empty and closed, one row per patient holding |
| PatientDetails.DetailsPage.HandleAddProvider | src/pages/PatientDetails.tsx:110-128 | the new state is AddProvider of the old, one row per patient kept |
| PatientDetails.DetailsPage.HandleAddClinic | src/pages/PatientDetails.tsx:62-91 | the new state is AddClinic of the old, one row per patient kept |
| PatientDetails.DetailsPage.HandleRemoveClinic | src/pages/PatientDetails.tsx:93-108 | the new state is RemoveClinic of the old, one row per patient kept |
| PatientDetails.DetailsPage.HandleRemoveProvider | src/pages/PatientDetails.tsx:130-145 | the new state is RemoveProvider of the old, one row per patient kept |
| PatientDetails.DetailsPage.HandleAddDrugWith | src/pages/PatientDetails.tsx:191-219 | the new state is AddDrugWith of the old over the catalog given, one row per patient kept |
| PatientDetails.DetailsPage.HandleRemoveDrug | src/pages/PatientDetails.tsx:221-237 | the new state is RemoveDrug of the old, one row per patient kept |
| PatientDetails.DetailsPage.HandleUpdateRefillDate | src/pages/PatientDetails.tsx:239-253 | the new state is UpdateRefillDate of the old, one row per patient kept |
| PatientDetails.DetailsPage.HandleCreateDrug | src/pages/PatientDetails.tsx:255-280 | the new state is CreateDrug of the old, the corrected transition that looks the new drug up in the updated catalog; one row per patient kept |

## Left out

- The data store (Supabase) and the network: each query's outcome is a parameter. Reads that reload a page after a write are taken to return what was written, so a page's rows are the store's rows.
- Loading (`src/pages/ProgramEnrollment.tsx:37-70`, `src/pages/PatientDetails.tsx:31-60`): the queries and the filtering into page state. The models start from a loaded state.
- Browser effects: `window.open` of the registration portal and the logout one second after enrolling (`src/pages/ProgramEnrollment.tsx:95-101`), `localStorage` (kept as the `storedUserId` field), and console logging.
- Time zones: `new Date(string)` parses in UTC while `getDate` reads local time, and `toISOString` is used for the fallback refill date. The model treats dates as plain calendar fields.
- Rendering: JSX, class names, `toLocaleString` money formatting and the month and day names. Only which controls are drawn is modelled (`EnrollmentLifecycle.Offered`).
- IEEE doubles: prices and amounts are exact reals, and `parseFloat` is modelled only on the `[0-9.]` strings the cap's clean-up produces. Exponents cannot occur there.
- Integer width: day numbers and years are unbounded integers. The Date object's range limits are not modelled.
- `handleCreateClinic` and `handleCreateProvider` (`src/pages/PatientDetails.tsx:147-189`) are not part of this model.
- `handleSubmit` and the navigation between screens (`src/App.tsx`, `src/pages/Login.tsx`) are not part of this model.
- The deletes that begin a replace on the patient-details page are not checked by the source. They are taken to succeed.
- The `clinic_providers` lookup's error is ignored by the source and reads as "no linked provider". The model looks the provider up without a failure flag.
- Store columns with defaults (`id`, `created_at`, `enrolled_at`) and the enrollment table's own `id`: rows are keyed by program id, which is unique per patient.
- Concurrency: handlers are modelled as atomic steps. React state batching, and two handlers interleaving their awaits, are not modelled.
- Passwords are compared as plain strings, as the source does. Hashing is absent from the source.
- PatientDetails.DetailsPage.HandleCreateDrug: follows the corrected `CreateDrug`, not the code as written. The source looks the new drug up in the catalog of the same render (see Findings), which `CreateDrugAsWritten` and `CreateDrugLosesSelection` state.
- PatientDetails.IsSpace: knows ASCII whitespace, no-break space and the byte-order mark, not every Unicode space or line terminator that `String.prototype.trim` removes (U+1680, U+2000 to U+200A, U+2028, U+2029, U+202F, U+205F, U+3000). A name made only of U+2003 is refused by the source's `trim()` check at `src/pages/PatientDetails.tsx:256`, but the model creates a drug with it.
- PatientDetails.TrimStart: removes only the characters `IsSpace` knows.
- PatientDetails.TrimEnd: removes only the characters `IsSpace` knows.
- PatientDetails.Trim: composes TrimStart and TrimEnd, so the same gap applies.
- PatientDetails.TrimEmptyIffBlank: "blank" means made only of the characters `IsSpace` knows.
- PatientDetails.NewCatalogDrug: its name is trimmed over the same reduced whitespace set.
- PatientDetails.CreateDrugAsWritten: a name blank only under the wider Unicode set still creates a drug.
- PatientDetails.CreateDrug: the same gap as `CreateDrugAsWritten`.
- RefillCalendar.MonthAfter: states the plain rollover only outside years 0..99, because the Date constructor reads those as 1900..1999 (`RefillCalendar.TwoDigitYearNavigation` states what happens there).
- RefillCalendar.MonthBefore: as for MonthAfter, the round-trip lemmas require a view from year 100 on; "previous then next" (`AfterBeforeRoundTrip`) also excludes January of year 100, whose previous month is December of year 99, which the constructor reads as 1999.
- EnrollmentLifecycle.SubmitNewCompletionCreatesRow: the completion date is not required to be today or earlier, because the source checks that only through the input's `max` attribute.

## Findings

| source | as written | input that shows it | evidently intended | confidence | as-written member | corrected member |
|---|---|---|---|---|---|---|
| src/pages/ProgramEnrollment.tsx:519-545 | Inside an existing row's panel, the completion-date picker and its Submit are drawn whenever `showDatePicker` is set and the program is open, whatever the row's status. Ticking Rejected (`:372-387`) or pressing the Rejected button (`:119-132`) does not reset `showDatePicker`, so the rejected row can then be submitted as completed. | An open program with no row: select it, tick Completed, tick Rejected, enter a date, press Submit. The row goes from a null status (rejected) to "completed". | The picker in a row's panel only for rows whose status can still change (enrolled or ongoing), so completed and rejected rows are final. | not executed | EnrollmentLifecycle.RejectedBecomesCompleted | EnrollmentLifecycle.TerminalRowIsFrozen |
| src/pages/PatientDetails.tsx:271-273 | `handleCreateDrug` adds the new drug with `setDrugs` and then awaits `handleAddDrug`. That call looks the id up in the `drugs` array of the same render (`:200-201`), which does not yet hold the new drug. The patient's drug row is deleted, nothing is inserted, and no drug is selected. | A call of `handleCreateDrug` with a non-blank `newDrugName` for a signed-in patient with a drug. No control of this page makes that call, and `newDrugName` is only ever set to the empty string (`:21`, `:274`), so the defect is latent. | The created drug is added to the catalog and becomes the patient's drug. | not executed | PatientDetails.CreateDrugLosesSelection | PatientDetails.CreateDrugSelectsIt |
