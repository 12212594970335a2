/** The application store of context/AppContext.tsx: one state record that every
    mutation replaces, and the queries the pages read from it. */
module Store {
  import opened Types
  import Rates
  import Fees
  import Billing
  import Schedule
  import Records

  /** The fields of the application state the core reads or writes. */
  datatype AppState = AppState(
    students: seq<Student>,
    fees: seq<Fee>,
    payments: seq<Payment>,
    expenses: seq<Expense>,
    attendance: seq<Attendance>,
    tieredAmountHistory: seq<Rates.RateEntry>,
    simulatedDate: Date,
    maxCapacityPerShift: int)

  class AppStore {
    var state: AppState

    /** Student ids are distinct and there is at most one fee per student and period. */
    ghost predicate Valid()
      reads this
    {
      UniqueIds(state.students) && FeesUnique(state.fees)
    }

    /** resetData: the given roster, no records, the default rates from the
        simulated month on and ten places per shift. */
    constructor (roster: seq<Student>, today: Date)
      requires UniqueIds(roster)
      ensures Valid()
      ensures state == AppState(roster, [], [], [], [], [Rates.RateEntry(today.month, today.year, Rates.DefaultRates)], today, 10)
    {
      state := AppState(roster, [], [], [], [], [Rates.RateEntry(today.month, today.year, Rates.DefaultRates)], today, 10);
    }

    /** getRatesForPeriod on the current history. */
    function RatesFor(month: int, year: int): (r: Rates.RateTable)
      reads this
      ensures r == Rates.DefaultRates || exists e :: e in state.tieredAmountHistory && e.rates == r
    {
      Rates.RatesForPeriod(state.tieredAmountHistory, month, year)
    }

    function StudentDebt(studentId: string): (r: seq<Billing.DebtEntry>)
      reads this
      ensures forall d :: d in r ==> d.paid < d.owed
    {
      Billing.StudentDebt(state.fees, state.payments, studentId)
    }

    function StudentStatus(studentId: string): (r: PaymentStatus)
      reads this
      ensures r != Partial
      ensures Billing.StudentDebt(state.fees, state.payments, studentId) == [] ==> r == Paid
    {
      Billing.StatusOf(state.fees, state.payments, studentId, state.simulatedDate)
    }

    function TotalDelinquentDebt(): (r: int)
      reads this
      ensures r >= 0
    {
      Billing.TotalDelinquentDebtSign(state.students, state.fees, state.payments, state.simulatedDate);
      Billing.TotalDelinquentDebt(state.students, state.fees, state.payments, state.simulatedDate)
    }

    /** registerBulkFees(month, year). */
    method RegisterBulkFees(month: int, year: int)
      requires Valid()
      modifies this
      ensures Valid()
      ensures state == old(state).(fees := Fees.RegisterBulkFees(old(state.students), old(state.fees), old(RatesFor(month, year)), month, year))
    {
      Fees.RegisterBulkFeesUnique(state.students, state.fees, RatesFor(month, year), month, year);
      state := state.(fees := Fees.RegisterBulkFees(state.students, state.fees, RatesFor(month, year), month, year));
    }

    /** The fee effect: generation for the simulated month, which a second run leaves as it is. */
    method SyncFeesForToday()
      requires Valid()
      modifies this
      ensures Valid()
      ensures var m := old(state.simulatedDate.month);
              var y := old(state.simulatedDate.year);
              state == old(state).(fees := Fees.RegisterBulkFees(old(state.students), old(state.fees), old(RatesFor(m, y)), m, y))
      ensures forall s :: s in state.students ==> !Fees.MissingFee(s, state.fees, state.simulatedDate.month, state.simulatedDate.year)
    {
      var m, y := state.simulatedDate.month, state.simulatedDate.year;
      RegisterBulkFees(m, y);
      Fees.RegisterBulkFeesIdempotent(state.students, old(state.fees), old(RatesFor(m, y)), RatesFor(m, y), m, y);
      Fees.NewFeesMembers(state.students, state.fees, RatesFor(m, y), m, y);
      forall s | s in state.students ensures !Fees.MissingFee(s, state.fees, m, y) {
        assert Fees.MissingFee(s, state.fees, m, y) ==>
               Fees.FeeFor(s, RatesFor(m, y), m, y) in Fees.NewFees(state.students, state.fees, RatesFor(m, y), m, y);
      }
    }

    method SetSimulatedDate(date: Date)
      requires Valid()
      modifies this
      ensures Valid()
      ensures state == old(state).(simulatedDate := date)
    {
      state := state.(simulatedDate := date);
    }

    /** setHistoricalTieredAmount: afterwards the period resolves to the new rates. */
    method SetHistoricalTieredAmount(month: int, year: int, rates: Rates.RateTable)
      requires Valid()
      modifies this
      ensures Valid()
      ensures state == old(state).(tieredAmountHistory := Rates.SetHistorical(old(state.tieredAmountHistory), month, year, rates))
      ensures RatesFor(month, year) == rates
    {
      Rates.SetHistoricalSpec(state.tieredAmountHistory, month, year, rates, month, year);
      state := state.(tieredAmountHistory := Rates.SetHistorical(state.tieredAmountHistory, month, year, rates));
    }

    method DeleteHistoricalTieredAmount(month: int, year: int)
      requires Valid()
      modifies this
      ensures Valid()
      ensures state == old(state).(tieredAmountHistory := Rates.DeleteHistorical(old(state.tieredAmountHistory), month, year))
    {
      state := state.(tieredAmountHistory := Rates.DeleteHistorical(state.tieredAmountHistory, month, year));
    }

    /** addPayment: the payment, under the freshly drawn id, goes at the end. */
    method AddPayment(payment: Payment, newId: string)
      requires Valid()
      modifies this
      ensures Valid()
      ensures state == old(state).(payments := old(state.payments) + [payment.(id := newId)])
    {
      state := state.(payments := state.payments + [payment.(id := newId)]);
    }

    method DeletePayment(id: string)
      requires Valid()
      modifies this
      ensures Valid()
      ensures state == old(state).(payments := Records.RemovePayment(old(state.payments), id))
    {
      state := state.(payments := Records.RemovePayment(state.payments, id));
    }

    method AddExpense(expense: Expense, newId: string)
      requires Valid()
      modifies this
      ensures Valid()
      ensures state == old(state).(expenses := old(state.expenses) + [expense.(id := newId)])
    {
      state := state.(expenses := state.expenses + [expense.(id := newId)]);
    }

    method DeleteExpense(id: string)
      requires Valid()
      modifies this
      ensures Valid()
      ensures state == old(state).(expenses := Records.RemoveExpense(old(state.expenses), id))
    {
      state := state.(expenses := Records.RemoveExpense(state.expenses, id));
    }

    /** updateExpense(id, form), which the finances page calls but the context does
        not define: here every expense with the id becomes the form under that id. */
    method UpdateExpense(id: string, form: Expense)
      requires Valid()
      modifies this
      ensures Valid()
      ensures state == old(state).(expenses := Records.ReplaceExpense(old(state.expenses), form.(id := id)))
    {
      state := state.(expenses := Records.ReplaceExpense(state.expenses, form.(id := id)));
    }

    method ToggleAttendance(studentId: string, date: string, time: string)
      requires Valid()
      modifies this
      ensures Valid()
      ensures state == old(state).(attendance := Records.ToggleAttendance(old(state.attendance), studentId, date, time))
    {
      state := state.(attendance := Records.ToggleAttendance(state.attendance, studentId, date, time));
    }

    method UpdateStudent(student: Student)
      requires Valid()
      modifies this
      ensures Valid()
      ensures state == old(state).(students := Records.ReplaceStudent(old(state.students), student))
    {
      Records.SameIdsUnique(state.students, Records.ReplaceStudent(state.students, student));
      state := state.(students := Records.ReplaceStudent(state.students, student));
    }

    /** addStudent: the new student, ACTIVE and without evaluations, goes at the end. */
    method AddStudent(form: Student, newId: string)
      requires Valid()
      requires forall s :: s in state.students ==> s.id != newId
      modifies this
      ensures Valid()
      ensures state == old(state).(students := old(state.students) + [Records.NewStudent(form, newId)])
    {
      Records.AppendFreshUnique(state.students, Records.NewStudent(form, newId));
      state := state.(students := state.students + [Records.NewStudent(form, newId)]);
    }

    method AddEvaluation(studentId: string, evaluation: Evaluation, newId: string)
      requires Valid()
      modifies this
      ensures Valid()
      ensures state == old(state).(students := Records.AddEvaluationTo(old(state.students), studentId, evaluation, newId))
    {
      Records.SameIdsUnique(state.students, Records.AddEvaluationTo(state.students, studentId, evaluation, newId));
      state := state.(students := Records.AddEvaluationTo(state.students, studentId, evaluation, newId));
    }

    /** moveStudentSchedule: reports whether the move took place; a refused move changes nothing. */
    method MoveStudentSchedule(studentId: string, oldDay: DayOfWeek, oldStart: string, newDay: DayOfWeek, newStart: string)
      returns (success: bool)
      requires Valid()
      modifies this
      ensures Valid()
      ensures var r := Schedule.MoveStudentSchedule(old(state.students), old(state.maxCapacityPerShift), studentId, oldDay, oldStart, newDay, newStart);
              state == old(state).(students := r.students) && success == r.success
      ensures !success ==> state == old(state)
      ensures success ==> Schedule.CountAt(state.students, newDay, newStart) <= state.maxCapacityPerShift
    {
      var r := Schedule.MoveStudentSchedule(state.students, state.maxCapacityPerShift, studentId, oldDay, oldStart, newDay, newStart);
      if r.success {
        var f := Schedule.FindStudent(state.students, studentId);
        var i :| 0 <= i < |state.students| && state.students[i] == f.value && f.value.id == studentId;
        Schedule.MoveWithinCapacity(state.students, state.maxCapacityPerShift, studentId, oldDay, oldStart, newDay, newStart, i);
      }
      Records.SameIdsUnique(state.students, r.students);
      state := state.(students := r.students);
      success := r.success;
    }

    method UpdateMaxCapacity(capacity: int)
      requires Valid()
      modifies this
      ensures Valid()
      ensures state == old(state).(maxCapacityPerShift := capacity)
    {
      state := state.(maxCapacityPerShift := capacity);
    }
  }
}
