/** The students page (pages/Students.tsx): the schedule editor of the student
    form with its shift-capacity check, the age shown on the profile, the fee
    history with its balances and labels, and the manual payment. */
module StudentsPage {
  import opened Types
  import opened Sorting
  import opened Billing
  import Schedule
  import Store

  /** Students counted against a shift's capacity: active, holding the slot, and
      not the student being edited. */
  predicate CountedAt(s: Student, editing: Option<string>, day: DayOfWeek, start: string) {
    Schedule.BooksSlot(s, day, start) && (editing.None? || s.id != editing.value)
  }

  function CountOthersAt(students: seq<Student>, editing: Option<string>, day: DayOfWeek, start: string): (n: nat)
    ensures n <= Schedule.CountAt(students, day, start)
    ensures n == 0 <==> forall s :: s in students ==> !CountedAt(s, editing, day, start)
  {
    if students == [] then 0
    else
      assert forall s :: s in students <==> s == students[0] || s in students[1..];
      (if CountedAt(students[0], editing, day, start) then 1 else 0) + CountOthersAt(students[1..], editing, day, start)
  }

  /** Without a student being edited every booking counts. */
  lemma {:induction false} CountOthersNone(students: seq<Student>, day: DayOfWeek, start: string)
    ensures CountOthersAt(students, None, day, start) == Schedule.CountAt(students, day, start)
  {
    if students != [] {
      CountOthersNone(students[1..], day, start);
    }
  }

  predicate InSchedule(schedule: seq<ScheduleSlot>, day: DayOfWeek, start: string) {
    exists k :: 0 <= k < |schedule| && schedule[k].day == day && schedule[k].startTime == start
  }

  /** No two slots of a schedule share (day, startTime). */
  predicate NoDuplicateSlots(schedule: seq<ScheduleSlot>) {
    forall i, j :: 0 <= i < j < |schedule| ==>
      !(schedule[i].day == schedule[j].day && schedule[i].startTime == schedule[j].startTime)
  }

  datatype SlotOutcome = Added | ShiftFull | AlreadyInForm

  /** The checks of addSlotToForm, capacity first. */
  function SlotCheck(students: seq<Student>, editing: Option<string>, maxCapacity: int,
                     schedule: seq<ScheduleSlot>, day: DayOfWeek, start: string): (o: SlotOutcome)
    ensures o == ShiftFull <==> CountOthersAt(students, editing, day, start) >= maxCapacity
    ensures o == AlreadyInForm <==> CountOthersAt(students, editing, day, start) < maxCapacity && InSchedule(schedule, day, start)
  {
    if CountOthersAt(students, editing, day, start) >= maxCapacity then ShiftFull
    else if InSchedule(schedule, day, start) then AlreadyInForm
    else Added
  }

  /** Appending a slot whose (day, start) is not yet in the schedule keeps the slots distinct. */
  lemma AddKeepsDistinct(schedule: seq<ScheduleSlot>, slot: ScheduleSlot)
    requires NoDuplicateSlots(schedule)
    requires !InSchedule(schedule, slot.day, slot.startTime)
    ensures NoDuplicateSlots(schedule + [slot])
  {
    var r := schedule + [slot];
    forall i, j | 0 <= i < j < |r| ensures !(r[i].day == r[j].day && r[i].startTime == r[j].startTime) {
      if j == |schedule| {
        assert r[i] == schedule[i];
      } else {
        assert r[i] == schedule[i] && r[j] == schedule[j];
      }
    }
  }

  /** removeSlotFromForm's filter: only the slots with the id go. */
  function RemoveSlot(schedule: seq<ScheduleSlot>, id: string): (r: seq<ScheduleSlot>)
    ensures forall s :: s in r <==> s in schedule && s.id != id
    ensures Subseq(r, schedule)
  {
    FilterIsSubseq(schedule, (s: ScheduleSlot) => s.id != id);
    Filter(schedule, (s: ScheduleSlot) => s.id != id)
  }

  /** The schedule part of the student form. */
  class StudentForm {
    var schedule: seq<ScheduleSlot>

    constructor (initial: seq<ScheduleSlot>)
      ensures schedule == initial
    {
      schedule := initial;
    }

    /** addSlotToForm: a full shift or a slot already in the form is refused and the
        form stays as it is; otherwise exactly the new slot, under its fresh id, is appended. */
    method AddSlotToForm(students: seq<Student>, editing: Option<string>, maxCapacity: int,
                         day: DayOfWeek, startTime: string, endTime: string, newId: string) returns (outcome: SlotOutcome)
      modifies this
      ensures outcome == SlotCheck(students, editing, maxCapacity, old(schedule), day, startTime)
      ensures outcome != Added ==> schedule == old(schedule)
      ensures outcome == Added ==> schedule == old(schedule) + [ScheduleSlot(newId, day, startTime, endTime)]
      ensures old(NoDuplicateSlots(schedule)) ==> NoDuplicateSlots(schedule)
    {
      var currentCount := CountOthersAt(students, editing, day, startTime);
      var alreadyInForm := exists k :: 0 <= k < |schedule| && schedule[k].day == day && schedule[k].startTime == startTime;
      if currentCount >= maxCapacity {
        outcome := ShiftFull;
        return;
      }
      if alreadyInForm {
        outcome := AlreadyInForm;
        return;
      }
      if NoDuplicateSlots(schedule) {
        AddKeepsDistinct(schedule, ScheduleSlot(newId, day, startTime, endTime));
      }
      schedule := schedule + [ScheduleSlot(newId, day, startTime, endTime)];
      outcome := Added;
    }

    method RemoveSlotFromForm(id: string)
      modifies this
      ensures schedule == RemoveSlot(old(schedule), id)
    {
      schedule := RemoveSlot(schedule, id);
    }
  }

  /** (y, m, d) comes strictly before (y', m', d') in calendar order. */
  predicate DateBefore(a: Date, b: Date) {
    a.year < b.year || (a.year == b.year && (a.month < b.month || (a.month == b.month && a.day < b.day)))
  }

  /** The n-th birthday of someone born on `birth`. */
  function Anniversary(birth: Date, n: int): Date {
    Date(birth.year + n, birth.month, birth.day)
  }

  /** calculateAge: 0 without a birth date; otherwise the number of birthdays reached
      by the simulated day, that is, the age whose anniversary is not after today
      while the next one is. */
  method CalculateAge(birthDate: Option<Date>, today: Date) returns (age: int)
    ensures birthDate.None? ==> age == 0
    ensures birthDate.Some? ==> !DateBefore(today, Anniversary(birthDate.value, age)) &&
                                DateBefore(today, Anniversary(birthDate.value, age + 1))
  {
    if birthDate.None? {
      return 0;
    }
    var birth := birthDate.value;
    age := today.year - birth.year;
    var m := today.month - birth.month;
    if m < 0 || (m == 0 && today.day < birth.day) {
      age := age - 1;
    }
  }

  /** A row of the fee history. */
  datatype HistoryRow = HistoryRow(month: int, year: int, amountOwed: int, paid: int, balance: int)

  function HistoryKey(r: HistoryRow): (int, int) {
    (r.year, r.month)
  }

  function RowOf(f: Fee, payments: seq<Payment>, studentId: string): HistoryRow {
    var paid := PaidFor(payments, studentId, f.month, f.year);
    HistoryRow(f.month, f.year, f.amountOwed, paid, f.amountOwed - paid)
  }

  /** The number of the student's fees. */
  function FeesOfStudent(fees: seq<Fee>, studentId: string): nat {
    if fees == [] then 0
    else (if fees[0].studentId == studentId then 1 else 0) + FeesOfStudent(fees[1..], studentId)
  }

  function RowsOf(fees: seq<Fee>, payments: seq<Payment>, studentId: string): (r: seq<HistoryRow>)
    ensures |r| == FeesOfStudent(fees, studentId)
    ensures forall h :: h in r <==> exists f :: f in fees && f.studentId == studentId && h == RowOf(f, payments, studentId)
  {
    if fees == [] then []
    else
      assert forall f :: f in fees <==> f == fees[0] || f in fees[1..];
      (if fees[0].studentId == studentId then [RowOf(fees[0], payments, studentId)] else []) +
      RowsOf(fees[1..], payments, studentId)
  }

  /** The page's selectedStudentId is truthy: present and not the empty string. */
  predicate Chosen(selected: Option<string>) {
    selected.Some? && selected.value != ""
  }

  /** studentFeeHistory: nothing without a selected student; otherwise a row for each of
      the student's fees, with what was paid for its period and the balance left, latest
      period first. */
  function FeeHistory(fees: seq<Fee>, payments: seq<Payment>, selected: Option<string>): (r: seq<HistoryRow>)
    ensures !Chosen(selected) ==> r == []
    ensures Chosen(selected) ==> |r| == FeesOfStudent(fees, selected.value)
    ensures Chosen(selected) ==> multiset(r) == multiset(RowsOf(fees, payments, selected.value))
    ensures Chosen(selected) ==>
              forall h :: h in r <==> exists f :: f in fees && f.studentId == selected.value &&
                                         h.month == f.month && h.year == f.year && h.amountOwed == f.amountOwed &&
                                         h.paid == PaidFor(payments, selected.value, f.month, f.year) &&
                                         h.balance == f.amountOwed - h.paid
    ensures SortedDesc(r, HistoryKey)
  {
    if !Chosen(selected) then []
    else
      var rows := RowsOf(fees, payments, selected.value);
      SortDescMembers(rows, HistoryKey);
      SortDesc(rows, HistoryKey)
  }

  function PositiveBalance(r: HistoryRow): int {
    if r.balance > 0 then r.balance else 0
  }

  /** debtTotal: the positive balances of the history, summed. */
  function DebtTotal(history: seq<HistoryRow>): (t: int)
    ensures t >= 0
  {
    SumPositive(history);
    SumBy(history, PositiveBalance)
  }

  lemma {:induction false} SumPositive(history: seq<HistoryRow>)
    ensures SumBy(history, PositiveBalance) >= 0
  {
    if history != [] {
      SumPositive(history[1..]);
    }
  }

  lemma {:induction false} RowsDebt(fees: seq<Fee>, payments: seq<Payment>, studentId: string)
    ensures SumBy(RowsOf(fees, payments, studentId), PositiveBalance) == DebtBalance(StudentDebt(fees, payments, studentId))
  {
    if fees != [] {
      var head := if fees[0].studentId == studentId then [RowOf(fees[0], payments, studentId)] else [];
      SumByConcat(head, RowsOf(fees[1..], payments, studentId), PositiveBalance);
      RowsDebt(fees[1..], payments, studentId);
      if head != [] { assert head[1..] == []; }
      var d := EntryOf(fees[0], payments, studentId);
      var rest := StudentDebt(fees[1..], payments, studentId);
      if fees[0].studentId == studentId && d.paid < d.owed {
        assert ([d] + rest)[1..] == rest;
      } else {
        assert [] + rest == rest;
      }
    }
  }

  /** The profile's outstanding total is the billing engine's balance of the student's
      debt; the empty id selects nobody and shows no total. */
  lemma DebtTotalIsDebt(fees: seq<Fee>, payments: seq<Payment>, studentId: string)
    ensures DebtTotal(FeeHistory(fees, payments, Some(studentId))) ==
            if studentId == "" then 0 else DebtBalance(StudentDebt(fees, payments, studentId))
  {
    RowsDebt(fees, payments, studentId);
    SumBySort(RowsOf(fees, payments, studentId), HistoryKey, PositiveBalance);
  }

  /** The status label of a history row. */
  function RowLabel(r: HistoryRow): (tag: string)
    ensures tag in {"Saldado", "Parcial", "Pendiente"}
    ensures tag == "Saldado" <==> r.balance <= 0
    ensures tag == "Parcial" <==> r.balance > 0 && r.paid > 0
  {
    if r.balance <= 0 then "Saldado" else if r.paid > 0 then "Parcial" else "Pendiente"
  }

  /** A history row is labelled other than "Saldado" exactly when its period is in the student's debt. */
  lemma RowLabelMatchesDebt(fees: seq<Fee>, payments: seq<Payment>, studentId: string, h: HistoryRow)
    requires h in FeeHistory(fees, payments, Some(studentId))
    ensures RowLabel(h) != "Saldado" <==> DebtEntry(h.month, h.year, h.amountOwed, h.paid) in StudentDebt(fees, payments, studentId)
  {
    assert Chosen(Some(studentId));
    StudentDebtMembers(fees, payments, studentId, DebtEntry(h.month, h.year, h.amountOwed, h.paid));
    var f :| f in fees && f.studentId == studentId && h.month == f.month && h.year == f.year && h.amountOwed == f.amountOwed &&
             h.paid == PaidFor(payments, studentId, f.month, f.year) && h.balance == f.amountOwed - h.paid;
    assert EntryOf(f, payments, studentId) == DebtEntry(h.month, h.year, h.amountOwed, h.paid);
  }

  /** The payment modal's fields. */
  datatype PaymentForm = PaymentForm(amountToPay: int, currentBalance: int, month: int, year: int)

  /** handleAddPayment: without a selected student (an empty id is none) or a positive amount nothing is
      recorded; otherwise one payment for the form's period; the result tells whether
      a balance remains (the partial-payment message). */
  method HandleAddPayment(store: Store.AppStore, selected: Option<string>, form: PaymentForm, date: Date, newId: string)
    returns (partial: bool)
    requires store.Valid()
    modifies store
    ensures store.Valid()
    ensures (!Chosen(selected) || form.amountToPay <= 0) ==> store.state == old(store.state) && !partial
    ensures Chosen(selected) && form.amountToPay > 0 ==>
              store.state == old(store.state).(payments := old(store.state.payments) +
                               [Payment(newId, selected.value, form.month, form.year, form.amountToPay, date)]) &&
              (partial <==> form.currentBalance - form.amountToPay > 0)
  {
    if !Chosen(selected) || form.amountToPay <= 0 {
      return false;
    }
    store.AddPayment(Payment("", selected.value, form.month, form.year, form.amountToPay, date), newId);
    partial := form.currentBalance - form.amountToPay > 0;
  }
}
