# Gym manager billing and capacity engine in Dafny

This project models the core of a single-page gym manager. The application keeps one in-memory state, `AppState`, holding:

- students and their weekly class slots;
- monthly fees, payments and expenses;
- attendance;
- a history of per-period tier rates;
- a simulated "today";
- a capacity per shift.

The model covers these parts of the application:

- **The store** (`context/AppContext.tsx`):
  - the rate resolver;
  - the fee generator;
  - the per-student debt and the three-way payment status (PAID / PENDING / DELINQUENT);
  - the total delinquent debt;
  - every store mutation the pages call.
- **The page logic that calls the store:**
  - the cash dashboard. This covers the express-payment allocation, the delinquent list, the per-student collection details and the period totals;
  - the students page. This covers slot validation, the age, the fee history, the debt total, the row label and the payment form;
  - the weekly agenda. This covers the slot grid, shift and compact filters, the capacity flag, the card order, drag and drop, and "settle current debt";
  - the finances page. This covers the month cards, the yearly chart, the year selector and the expense form.

How the code is laid out:

- Pure derived views are datatypes and functions, with lemmas about them.
- The store is a class `Store.AppStore` with a single `state` field. Every mutation reassigns that field. Each mutation method states the whole new state, and keeps the invariant `Valid()`: student ids are distinct and there is at most one fee per student and period.
- Page-local state that the source updates in place is a class: the express-payment modal is `Dashboard.ExpressPanel`, and the student form's schedule is `StudentsPage.StudentForm`.
- Loops of the source are methods with loop invariants, proved against specification functions:
  - the express allocation;
  - the collection dictionary;
  - the slot grid;
  - the year set.
- `StudentsPage.CalculateAge` has no loop, as in the source: it takes the difference of the years and subtracts one when the birthday has not come yet.

Conventions:

- Months are 0-based, as in the application.
- Dates are `Date(year, month, day)`.
- Amounts are integers.
- A time of day is an `"HH:mm"` string. Its hour is read the way `parseInt(time.split(':')[0])` reads it. A missing number is `None`, standing for NaN.

| file | module | models |
|---|---|---|
| types.dfy | Types | the records of `types.ts` |
| sorting.dfy | Sorting | stable descending sort, filter, sum (JavaScript `sort`/`filter`/`reduce`) |
| text.dfy | Text | decimal rendering, `padStart(2,'0')`, `parseInt` of the hour |
| rates.dfy | Rates | `getRatesForPeriod`, the rate-history edits |
| fees.dfy | Fees | `registerBulkFees` and the fee effect |
| billing.dfy | Billing | `getStudentDebt`, `getStudentStatus`, `getTotalDelinquentDebt` |
| schedule.dfy | Schedule | shift occupancy and `moveStudentSchedule` |
| records.dfy | Records | the list updates behind the other store mutations |
| store.dfy | Store | the store class |
| dashboard.dfy | Dashboard | pages/Dashboard.tsx |
| students_page.dfy | StudentsPage | pages/Students.tsx |
| agenda.dfy | Agenda | pages/Agenda.tsx |
| finances.dfy | Finances | pages/Finances.tsx |
| fixtures.dfy | Fixtures | the demo roster of constants.ts and scenarios on it |

## Model

| member | source | states |
|---|---|---|
| Rates.RatesForPeriod | context/AppContext.tsx:88-98 | getRatesForPeriod: the result is the rates of some history entry or the default table; which one is stated by RatesExact, RatesClosestPast and RatesDefault |
| Rates.FindExact | context/AppContext.tsx:89-90 | the first history entry for exactly (month, year), or none exists |
| Rates.FindEarlier | context/AppContext.tsx:91-95 | the first strictly earlier entry of the history sorted by (year, month) descending, or none exists |
| Rates.RatesExact | context/AppContext.tsx:88-90 | an exact entry wins: the resolver returns the first entry for the period |
| Rates.RatesClosestPast | context/AppContext.tsx:91-96 | without an exact entry but with an earlier one, the resolver returns the rates of an earlier entry that no other earlier entry follows in (year, month) order |
| Rates.RatesDefault | context/AppContext.tsx:88-98 | with neither, the resolver returns exactly 15000/18000/21000/24000/27000 |
| Rates.WithoutPeriod | context/AppContext.tsx:135-147 | the history without the period's entries, everything else kept |
| Rates.SetHistorical | context/AppContext.tsx:135-140 | the new history holds exactly the other periods' entries and the new entry; SetHistoricalSpec adds that the period then has one entry and resolves to the new rates |
| Rates.DeleteHistorical | context/AppContext.tsx:142-147 | the new history holds exactly the entries of other periods |
| Rates.SetHistoricalSpec | context/AppContext.tsx:135-140 | after the upsert the period has exactly one entry, it resolves to the new rates, and other periods' entries are untouched |
| Rates.DeleteHistoricalSpec | context/AppContext.tsx:142-147 | after the delete the period has no entry and other periods' entries are untouched |
| Fees.NewFees | context/AppContext.tsx:198-215 | at most one fee per roster entry; NewFeesMembers states which fees, NewFeePrice their price and NewFeesPeriod their period |
| Fees.RegisterBulkFees | context/AppContext.tsx:195-218 | every existing fee is kept and at most one fee per student is added; RegisterBulkFeesSpec states the exact result |
| Fees.SessionTier | context/AppContext.tsx:206 | the tier is the session count clamped to 1..5 |
| Fees.NewFeesMembers | context/AppContext.tsx:198-215 | a fee is generated iff it is the priced fee of an active student who has no fee for the period |
| Fees.RegisterBulkFeesSpec | context/AppContext.tsx:195-218 | existing fees form an unchanged prefix; an active student lacking a fee ends with exactly one, any other student keeps their count |
| Fees.NewFeePrice | context/AppContext.tsx:204-214 | every generated fee belongs to an active student and costs the rate of that student's tier |
| Fees.InactiveGetsNone | context/AppContext.tsx:199 | inactive students get no fee |
| Fees.NewFeesPeriod | context/AppContext.tsx:210-212 | no fee is generated for any other period |
| Fees.RegisterBulkFeesIdempotent | context/AppContext.tsx:203 | a second generation for the same period, under any rates, adds nothing |
| Fees.RegisterBulkFeesUnique | context/AppContext.tsx:195-218 | generation keeps at most one fee per student and period |
| Billing.StudentDebt | context/AppContext.tsx:230-238 | every entry has paid < owed, where paid is the sum of the student's payments for the period |
| Billing.StudentDebtMembers | context/AppContext.tsx:230-238 | an entry is in the debt iff it comes from one of the student's fees and is not fully paid |
| Billing.HasPastDebt | context/AppContext.tsx:247 | true iff some entry is strictly before today's (year, month) |
| Billing.FindCurrent | context/AppContext.tsx:249 | an entry of today's month, or none exists |
| Billing.StatusOf | context/AppContext.tsx:240-255 | never PARTIAL; PAID iff there is no past or current-month debt; PENDING iff only an unpaid current-month debt exists and the day is at most 10; DELINQUENT otherwise |
| Billing.DebtBalance | context/AppContext.tsx:262 | the sum of owed − paid over a debt list; DebtBalancePositive states its sign |
| Billing.TotalDelinquentDebt | context/AppContext.tsx:257-265 | getTotalDelinquentDebt; its sign and when it is positive are stated by TotalDelinquentDebtSign, and what each student adds by ContributionBounds |
| Billing.DebtBalancePositive | context/AppContext.tsx:257-265 | a non-empty debt list has a positive balance |
| Billing.ContributionBounds | context/AppContext.tsx:258-263 | a student contributes at least 0, and more than 0 iff they are active and delinquent |
| Billing.TotalDelinquentDebtSign | context/AppContext.tsx:257-265 | the total is at least 0, and positive iff some active student is delinquent |
| Billing.NonDelinquentAddsNothing | context/AppContext.tsx:259 | inactive or non-delinquent students add nothing to the total |
| Schedule.CountAt | context/AppContext.tsx:301-304 | the shift's count of active holders is at most the roster size, and 0 iff nobody books the shift |
| Schedule.FindStudent | context/AppContext.tsx:298 | the first student with the id, or none exists |
| Schedule.MoveSlots | context/AppContext.tsx:308-313 | exactly the slots at (oldDay, oldStart) move to the new shift, ending an hour after the new start |
| Schedule.SetSchedule | context/AppContext.tsx:318 | the roster entries with the id get the schedule, the others stay as they were |
| Schedule.MoveStudentSchedule | context/AppContext.tsx:295-322 | an unknown id or a full target leaves the roster unchanged and reports failure; success iff the id exists and the target has room; ids are kept and other students untouched |
| Schedule.MoveWithinCapacity | context/AppContext.tsx:301-319 | with distinct ids, a successful move leaves the target at or under capacity and changes only the mover's schedule |
| Schedule.MoveReachesTarget | context/AppContext.tsx:308-313 | a student who had the old slot holds the new shift afterwards |
| Records.ToggleAttendance | context/AppContext.tsx:220-228 | presence flips, other classes' records are kept, and from absent a single present record is appended |
| Records.ToggleTwiceRestores | context/AppContext.tsx:220-228 | toggling twice from absent restores the original list |
| Records.RemovePayment | context/AppContext.tsx:154-156 | exactly the payments with another id remain, in order |
| Records.RemoveExpense | context/AppContext.tsx:163-165 | exactly the expenses with another id remain, in order |
| Records.ReplaceExpense | pages/Finances.tsx:93-94 | the expense with the form's id is replaced, positions kept |
| Records.ReplaceExpenseMembers | pages/Finances.tsx:94 | after the edit, expenses with other ids are exactly the old ones, and the new expense is present iff the list held one with its id |
| Records.ReplaceThenRemove | pages/Finances.tsx:94 | removing the edited id after the edit gives what removing it before gives: the other expenses keep their order |
| Records.ReplaceStudent | context/AppContext.tsx:288-293 | every roster entry with the student's id becomes the student; ids and length kept |
| Records.AddEvaluationTo | context/AppContext.tsx:176-186 | the student with the id gets the evaluation, under its new id, appended; everyone else unchanged |
| Records.NewStudent | context/AppContext.tsx:324-325 | the new student has the fresh id, ACTIVE status and no evaluations, and otherwise is the form |
| Records.AppendFreshUnique | context/AppContext.tsx:324-327 | appending a student with a fresh id keeps ids distinct |
| Store.AppStore.constructor | context/AppContext.tsx:267-285 | the reset state: the roster, empty lists, default rates from today's month, capacity 10 |
| Store.AppStore.RatesFor | context/AppContext.tsx:88-98 | getRatesForPeriod on the current history: the rates of a history entry or the default table |
| Store.AppStore.StudentDebt | context/AppContext.tsx:230-238 | getStudentDebt on the current state: every entry is not fully paid |
| Store.AppStore.StudentStatus | context/AppContext.tsx:240-255 | getStudentStatus on the current state: never PARTIAL, and PAID when there is no debt |
| Store.AppStore.TotalDelinquentDebt | context/AppContext.tsx:257-265 | getTotalDelinquentDebt on the current state: never negative |
| Store.AppStore.RegisterBulkFees | context/AppContext.tsx:195-218 | only the fees change, to the generated list priced by the period's rates |
| Store.AppStore.SyncFeesForToday | context/AppContext.tsx:100-125 | the fee effect generates today's fees, after which no student lacks one |
| Store.AppStore.SetSimulatedDate | context/AppContext.tsx:127-129 | only the simulated date changes |
| Store.AppStore.SetHistoricalTieredAmount | context/AppContext.tsx:135-140 | only the history changes; the period then resolves to the new rates |
| Store.AppStore.DeleteHistoricalTieredAmount | context/AppContext.tsx:142-147 | only the history changes, losing the period's entries |
| Store.AppStore.AddPayment | context/AppContext.tsx:149-152 | the payment with its new id is appended; nothing else changes |
| Store.AppStore.DeletePayment | context/AppContext.tsx:154-156 | only the payments change, losing those with the id |
| Store.AppStore.AddExpense | context/AppContext.tsx:158-161 | the expense with its new id is appended; nothing else changes |
| Store.AppStore.DeleteExpense | context/AppContext.tsx:163-165 | only the expenses change, losing those with the id |
| Store.AppStore.UpdateExpense | pages/Finances.tsx:94 | only the expenses change: those with the id become the form under that id |
| Store.AppStore.ToggleAttendance | context/AppContext.tsx:220-228 | only the attendance changes, by the toggle |
| Store.AppStore.UpdateStudent | context/AppContext.tsx:288-293 | only the roster changes, by replacement, keeping ids distinct |
| Store.AppStore.AddStudent | context/AppContext.tsx:324-327 | only the roster changes, by appending the new student |
| Store.AppStore.AddEvaluation | context/AppContext.tsx:176-186 | only the roster changes, by the evaluation append |
| Store.AppStore.MoveStudentSchedule | context/AppContext.tsx:295-322 | the roster becomes the move's result and the flag its success; a failure changes nothing; a success stays within capacity |
| Store.AppStore.UpdateMaxCapacity | context/AppContext.tsx:337-339 | only the capacity changes |
| Dashboard.PendingBalance | pages/Dashboard.tsx:172 | every pending period's balance is owed − paid, which is positive |
| Dashboard.CandidateFor | pages/Dashboard.tsx:171-174 | totalDebt is the student's debt balance, at least 0, and every pending month has a positive balance |
| Dashboard.CandidatesOf | pages/Dashboard.tsx:168-174 | exactly the cards of the students whose name contains the query; one card per matching roster entry, as many as MatchCount counts |
| Dashboard.SearchResults | pages/Dashboard.tsx:167-177 | an empty query gives nothing; the results are exactly the name matches with their debts, sorted by totalDebt descending; the results are a permutation of CandidatesOf, one per matching student |
| Dashboard.ToggleKeys | pages/Dashboard.tsx:194-195 | a selected key is removed, keeping the others; an unselected key is appended |
| Dashboard.ToggleKeysTwice | pages/Dashboard.tsx:194-195 | toggling a key twice restores an ordered selection that lacked it |
| Dashboard.SelectedFees | pages/Dashboard.tsx:196-198 | exactly the pending periods whose key is selected, in pendingMonths order |
| Dashboard.ExpressPanel.SelectStudent | pages/Dashboard.tsx:179-189 | selects only the first pending period, for its balance; with none pending, nothing changes |
| Dashboard.ExpressPanel.ToggleFee | pages/Dashboard.tsx:191-202 | the key is toggled and the amount becomes the sum of the selected periods' balances |
| Dashboard.ExpressPanel.SelectAll | pages/Dashboard.tsx:204-209 | every pending key is selected, for the total debt |
| Dashboard.Allocate | pages/Dashboard.tsx:215-229 | the express walk over the selected periods; AllocateOrder, AllocateTotal and AllocateNothingLeft state its result |
| Dashboard.AllocateOrder | pages/Dashboard.tsx:215-229 | grants go to a prefix of the selected periods, in order; none exceeds its balance; all but the last pay their period in full |
| Dashboard.AllocateTotal | pages/Dashboard.tsx:214-229 | with positive balances and a non-negative amount, every grant is positive, they sum to min(amount, Σ balances), and the remainder never goes negative |
| Dashboard.AllocateNothingLeft | pages/Dashboard.tsx:219 | nothing is granted once nothing remains |
| Dashboard.PayAllocated | pages/Dashboard.tsx:214-229 | the loop appends exactly one payment per grant of the allocation, in order, and nothing else |
| Dashboard.ExpressPanel.Submit | pages/Dashboard.tsx:211-234 | no student, no period or amount ≤ 0 changes nothing; otherwise the allocation's payments are added and the selection is cleared |
| Dashboard.DebtorsOf | pages/Dashboard.tsx:133-138 | exactly the active delinquent students, each with their debt balance |
| Dashboard.DebtorsTotal | pages/Dashboard.tsx:132-142 | the debtors' totals add up to the total delinquent debt |
| Dashboard.DelinquentList | pages/Dashboard.tsx:132-142 | exactly the active delinquent students, sorted by debt descending, summing to the total delinquent debt |
| Dashboard.RangePayments | pages/Dashboard.tsx:144 | exactly the payments dated in the range, in order |
| Dashboard.RangeExpenses | pages/Dashboard.tsx:147 | exactly the expenses dated in the range, in order |
| Dashboard.TotalCollected | pages/Dashboard.tsx:144-145 | the sum of the in-range payments; NetProfit and NetProfitUnrestricted relate it to the other figures |
| Dashboard.TotalExpenses | pages/Dashboard.tsx:147-148 | the sum of the in-range expenses; NetProfit and NetProfitUnrestricted relate it to the other figures |
| Dashboard.NetProfit | pages/Dashboard.tsx:144-150 | net profit plus period expenses equals period collections |
| Dashboard.NetProfitUnrestricted | pages/Dashboard.tsx:144-150 | over an all-inclusive range the figures are those of the whole lists |
| Dashboard.Aggregate | pages/Dashboard.tsx:111-119 | the dictionary has one entry per payer, in first-payment order, with the roster name, the total and the number of the payer's payments |
| Dashboard.CollectedSums | pages/Dashboard.tsx:107-124 | the rows' totals sum to the collected income and their counts to the number of payments |
| Dashboard.CollectedMembers | pages/Dashboard.tsx:121-123 | the rows are exactly the dictionary's entries, one per payer |
| Dashboard.CollectedDetails | pages/Dashboard.tsx:107-124 | one row per payer with name, total and count; totals sum to the period's collections, counts to its payments; sorted by total descending |
| StudentsPage.CountOthersAt | pages/Students.tsx:116-120 | the count excluding the edited student is at most the shift's count, and 0 iff nobody else books it |
| StudentsPage.CountOthersNone | pages/Students.tsx:118 | with no student being edited, the count is the shift's full count |
| StudentsPage.SlotCheck | pages/Students.tsx:114-133 | rejected as full iff the others' count reaches capacity; rejected as duplicate iff there is room but the form already has the shift |
| StudentsPage.StudentForm.AddSlotToForm | pages/Students.tsx:114-139 | a rejection leaves the form unchanged; acceptance appends exactly the new slot; no duplicate shift is ever introduced |
| StudentsPage.RemoveSlot | pages/Students.tsx:141-146 | exactly the slots with another id remain, in order |
| StudentsPage.StudentForm.RemoveSlotFromForm | pages/Students.tsx:141-146 | the form's schedule loses exactly the slots with the id |
| StudentsPage.CalculateAge | pages/Students.tsx:87-97 | no birth date gives 0; otherwise the age is the number of birthdays reached by today |
| StudentsPage.RowsOf | pages/Students.tsx:236-243 | one row per fee of the student, balance = owed − paid; as many rows as FeesOfStudent counts |
| StudentsPage.FeeHistory | pages/Students.tsx:234-245 | no selection, or the empty id, gives nothing; otherwise the student's rows, sorted by year, then month, descending; a permutation of RowsOf, one row per fee of the student |
| StudentsPage.DebtTotal | pages/Students.tsx:247-249 | the debt total is at least 0 |
| StudentsPage.DebtTotalIsDebt | pages/Students.tsx:247-249 | the debt total equals the balance of the store's debt list for the student, and is 0 for the empty id |
| StudentsPage.RowLabel | pages/Students.tsx:610-614 | "Saldado" iff balance ≤ 0, "Parcial" iff balance > 0 and something paid, else "Pendiente" |
| StudentsPage.RowLabelMatchesDebt | pages/Students.tsx:610-614 | a history row is not "Saldado" iff its period is in the store's debt list |
| StudentsPage.HandleAddPayment | pages/Students.tsx:181-200 | no student, the empty id, or amount ≤ 0 changes nothing; otherwise one payment is added, reported partial iff balance − amount > 0 |
| Agenda.AllTimeSlots | pages/Agenda.tsx:50-56 | sixteen five-character labels "05:00" … "20:00", the k-th one reading back as hour 5 + k |
| Agenda.FilteredTimeSlots | pages/Agenda.tsx:58-66 | the slots whose hour is in the shift, in order |
| Agenda.ShiftPartition | pages/Agenda.tsx:58-66 | the three shifts are pairwise disjoint, together hold every slot with an hour, and ALL keeps the slots |
| Agenda.FinalSlots | pages/Agenda.tsx:68-78 | outside compact mode the filtered slots; in it exactly those some active student holds on some weekday, in order |
| Agenda.Scheduled | pages/Agenda.tsx:322-325 | the cell's students are the active holders of the shift, as many as the shift's count |
| Agenda.CapacityFilters | pages/Agenda.tsx:327-330 | full iff the count reaches capacity; FULL and AVAILABLE are complementary and ALL shows every cell |
| Agenda.SortRank | pages/Agenda.tsx:42-48 | DELINQUENT 1, PENDING 2, PAID 3 |
| Agenda.SortedCards | pages/Agenda.tsx:332-336 | the same students, with rank non-decreasing: delinquent before pending before paid |
| Agenda.HandleDrop | pages/Agenda.tsx:102-115 | a drop on the card's own cell changes nothing and does not attempt the move; any other drop runs the store's move |
| Agenda.SettleClearsPeriod | pages/Agenda.tsx:205-212 | paying the first debt entry's balance takes its period out of the debt list |
| Agenda.SettleCurrentDebt | pages/Agenda.tsx:203-217 | with a debt, one payment of owed − paid for the first period is added and that period is cleared; without one nothing happens |
| Finances.TotalPaymentsMonth | pages/Finances.tsx:33-35 | the income card; MonthCardsSelectors and ChartMatchesCards state which payments it counts |
| Finances.TotalExpensesMonth | pages/Finances.tsx:37-42 | the expense card; MonthCardsSelectors and ChartMatchesCards state which expenses it counts |
| Finances.MonthCardsSelectors | pages/Finances.tsx:33-42 | a new payment moves the income card iff attributed to the month, whatever its date; a new expense moves the expense card iff dated in the month |
| Finances.YearlyData | pages/Finances.tsx:45-65 | twelve entries, entry m for month m, with utilidad = ingresos − gastos |
| Finances.ChartMatchesCards | pages/Finances.tsx:33-57 | the chart's bar for today's month shows the month cards' figures |
| Finances.YearlyIncomeTotal | pages/Finances.tsx:47-49 | the twelve ingresos add up to the year's payments attributed to months 0..11 |
| Finances.SetAdd | pages/Finances.tsx:111-113 | adding to the set keeps each value once and adds exactly the value |
| Finances.YearsOptions | pages/Finances.tsx:109-115 | exactly the current year, the payment years and the expense years, strictly descending |
| Finances.HandleSubmit | pages/Finances.tsx:89-107 | amount ≤ 0 changes nothing; a form opened on an expense with a non-empty id updates it; any other form adds an expense |
| Fixtures.InitialStudents | constants.ts:6-73 | the four demo students with distinct ids |
| Fixtures.FirstMonthFees | context/AppContext.tsx:100-125 | on a fresh state s1 and s3 are billed 21000 and s2 and s4 18000 |
| Fixtures.HistoryScenario | context/AppContext.tsx:88-98 | with March and May overrides, April uses March's rates, February the defaults and May its own |
| Fixtures.SharedShift | constants.ts:13-31 | Monday 08:00 holds two students |
| Fixtures.FullShiftRefuses | context/AppContext.tsx:306 | with capacity 2, moving s3 into Monday 08:00 fails and changes nothing |
| Fixtures.RoomyShiftAccepts | context/AppContext.tsx:295-322 | with capacity 3 the same move succeeds |
| Fixtures.StatusScenario | context/AppContext.tsx:250-254 | an unpaid current fee is PENDING on day 10 and DELINQUENT on day 11; a partial payment makes it DELINQUENT; full payment makes it PAID |
| Text.HourOf | pages/Agenda.tsx:60 | parseInt of the text before the colon, None for NaN; TimeLabelHour states it reads a label back |
| Text.TimeLabel | pages/Agenda.tsx:53 | the padded "HH:00" label; LabelWidth states its width and TimeLabelHour its hour |
| Text.EndTimeAfter | context/AppContext.tsx:310 | the end time written by the move; EndTimeOfLabel states it is the next hour's label |
| Text.LabelWidth | pages/Agenda.tsx:53 | below hour 100 the padded hour has two characters and the label five |
| Text.TimeLabelHour | pages/Agenda.tsx:50-60 | the hour of a padded label reads back as the hour |
| Text.EndTimeOfLabel | context/AppContext.tsx:310 | the end time of a label-start is the label of the next hour |

## Left out

- Rendering, modals, toasts, charts and the WhatsApp links are presentation, so nothing of them is modelled.
- Local storage, `lib/db.ts` and `lib/supabase.ts` are persistence with no logic. They are not part of this model.
- Random ids: every `Math.random()` id is a parameter of the operation, such as `newId` or `ids`. Fee ids are dropped because the core never reads them.
- Dates and clocks:
  - JavaScript date parsing, time zones, the Dashboard's date-range computation and the time-travel control are library behaviour, so they are not modelled. The range is a predicate parameter `inRange`.
  - The simulated "today" is a `Date` value.
  - Receipt dates that come from the real clock (`new Date()`) are a parameter.
- `Store.AppStore.SyncFeesForToday`: the React effect's re-run mechanics are not modelled. The method generates today's fees once; a second run adds nothing.
- `Store.AppStore.MoveStudentSchedule`: the source returns a flag set inside a state updater, and when the updater runs depends on React's batching. The model returns the flag of the pure transition.
- Rate tables always have the five tier keys. The source's `{[key]: number}` map, with a possibly missing key, is not modelled.
- Dropped state fields:
  - `setFeeConfig`, `setDefaultAmount`, `feeConfigs` and `defaultAmount` write fields that no computation reads;
  - guests, gym name, logo and message templates are managed by the Settings page and the UI.
- Amounts are integers. The floating-point time indicator and the monthly average of the finances page are not modelled.
- `Dashboard.SearchResults`: the name match is case-sensitive. `toLowerCase` has no Unicode-faithful model.
- `Dashboard.CollectedDetails`: rows are created in first-payment order before the stable sort. JavaScript places integer-like object keys first, so ties between such ids may be ordered differently in the source.
- `Text.HourOf` reads the leading decimal digits of the hour. It does not model signs, leading whitespace, or the `0x`/`0X` prefix that `parseInt` without a radix reads as hexadecimal. For example, `parseInt("0x10")` is 16, and the model gives 0.
- `Store.AppStore.AddStudent` requires the new id to be fresh, standing for the random id not colliding.
- `Agenda.SortRank` requires a status other than PARTIAL. The source has no configuration for PARTIAL, and the status engine never produces it, as `Billing.StatusOf` proves.
- `Finances.YearlyData` omits each entry's three-letter month name, which is presentation.
- `Store.AppStore.UpdateExpense`: the finances page calls `updateExpense(id, form)`, but the context does not provide it. The model defines it as replacing the expense with that id.
- The students page's list filter (`filteredStudents`) and the drag-data guard of `handleDrop` are view logic. They are not part of this model.
- Settings page sorting, routing and the Layout component are view code. They are not part of this model.
