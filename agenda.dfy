/** The weekly agenda (pages/Agenda.tsx): the grid of hourly slots, the shift and
    compact filters, the occupancy of a cell with its capacity filter, the order of
    the cards in a cell, moving a card, and settling a student's oldest debt. */
module Agenda {
  import opened Types
  import opened Sorting
  import opened Text
  import opened Billing
  import Schedule
  import Store

  /** allTimeSlots: "05:00", "06:00", ..., "20:00". */
  method AllTimeSlots() returns (hours: seq<string>)
    ensures |hours| == 16
    ensures forall k :: 0 <= k < 16 ==> hours[k] == TimeLabel(5 + k) && HourOf(hours[k]) == Some(5 + k) && |hours[k]| == 5
  {
    hours := [];
    for i := 5 to 21
      invariant |hours| == i - 5
      invariant forall k :: 0 <= k < i - 5 ==> hours[k] == TimeLabel(5 + k) && HourOf(hours[k]) == Some(5 + k) && |hours[k]| == 5
    {
      TimeLabelHour(i);
      LabelWidth(i);
      hours := hours + [TimeLabel(i)];
    }
  }

  datatype Shift = AllShifts | Morning | Afternoon | Night

  /** The shift test on parseInt of the hour; NaN fails every comparison. */
  predicate InShift(shift: Shift, hour: Option<nat>) {
    match shift
    case AllShifts => true
    case Morning => hour.Some? && hour.value < 12
    case Afternoon => hour.Some? && 12 <= hour.value < 18
    case Night => hour.Some? && hour.value >= 18
  }

  predicate SlotInShift(shift: Shift, time: string) {
    InShift(shift, HourOf(time))
  }

  /** filteredTimeSlots. */
  function FilteredTimeSlots(slots: seq<string>, shift: Shift): (r: seq<string>)
    ensures forall t :: t in r <==> t in slots && SlotInShift(shift, t)
    ensures Subseq(r, slots)
  {
    var p := (t: string) => SlotInShift(shift, t);
    FilterIsSubseq(slots, p);
    Filter(slots, p)
  }

  /** The three shifts split the slots: no slot is in two of them, every slot with an
      hour is in one, and ALL keeps the slots as they are. */
  lemma ShiftPartition(slots: seq<string>, t: string)
    ensures !(t in FilteredTimeSlots(slots, Morning) && t in FilteredTimeSlots(slots, Afternoon))
    ensures !(t in FilteredTimeSlots(slots, Morning) && t in FilteredTimeSlots(slots, Night))
    ensures !(t in FilteredTimeSlots(slots, Afternoon) && t in FilteredTimeSlots(slots, Night))
    ensures t in slots && HourOf(t).Some? ==>
              t in FilteredTimeSlots(slots, Morning) || t in FilteredTimeSlots(slots, Afternoon) || t in FilteredTimeSlots(slots, Night)
    ensures FilteredTimeSlots(slots, AllShifts) == slots
  {
    var p := (t: string) => SlotInShift(AllShifts, t);
    FilterAll(slots, p);
  }

  /** Some active student has a class at this time on some weekday. */
  predicate Occupied(students: seq<Student>, time: string) {
    exists d :: d in Days && exists s :: s in students && Schedule.BooksSlot(s, d, time)
  }

  /** finalSlots: the filtered slots, restricted in compact mode to the occupied ones. */
  function FinalSlots(filtered: seq<string>, compact: bool, students: seq<Student>): (r: seq<string>)
    ensures !compact ==> r == filtered
    ensures compact ==> forall t :: t in r <==> t in filtered && Occupied(students, t)
    ensures Subseq(r, filtered)
  {
    if !compact then
      FilterIsSubseq(filtered, (t: string) => true);
      FilterAll(filtered, (t: string) => true);
      filtered
    else
      FilterIsSubseq(filtered, t => Occupied(students, t));
      Filter(filtered, t => Occupied(students, t))
  }

  /** scheduledStudents of a cell. */
  function Scheduled(students: seq<Student>, day: DayOfWeek, time: string): (r: seq<Student>)
    ensures forall s :: s in r <==> s in students && Schedule.BooksSlot(s, day, time)
    ensures |r| == Schedule.CountAt(students, day, time)
  {
    ScheduledCount(students, day, time);
    Filter(students, s => Schedule.BooksSlot(s, day, time))
  }

  lemma {:induction false} ScheduledCount(students: seq<Student>, day: DayOfWeek, time: string)
    ensures |Filter(students, s => Schedule.BooksSlot(s, day, time))| == Schedule.CountAt(students, day, time)
  {
    if students != [] {
      ScheduledCount(students[1..], day, time);
    }
  }

  predicate IsFull(students: seq<Student>, day: DayOfWeek, time: string, maxCapacity: int) {
    |Scheduled(students, day, time)| >= maxCapacity
  }

  datatype CapacityFilter = AllCells | Available | Full

  predicate VisibleByCapacity(filter: CapacityFilter, full: bool) {
    match filter
    case AllCells => true
    case Full => full
    case Available => !full
  }

  /** FULL and AVAILABLE show complementary sets of cells, and ALL shows them all; a
      cell is full exactly when the shift's occupancy has reached the capacity. */
  lemma CapacityFilters(students: seq<Student>, day: DayOfWeek, time: string, maxCapacity: int)
    ensures IsFull(students, day, time, maxCapacity) <==> Schedule.CountAt(students, day, time) >= maxCapacity
    ensures VisibleByCapacity(Full, IsFull(students, day, time, maxCapacity)) !=
            VisibleByCapacity(Available, IsFull(students, day, time, maxCapacity))
    ensures VisibleByCapacity(AllCells, IsFull(students, day, time, maxCapacity))
  {
  }

  /** getStatusConfig(status).sortRank; PARTIAL has no configuration. */
  function SortRank(status: PaymentStatus): (rank: int)
    requires status != Partial
    ensures 1 <= rank <= 3
  {
    match status
    case Delinquent => 1
    case Pending => 2
    case Paid => 3
  }

  function CardKey(fees: seq<Fee>, payments: seq<Payment>, today: Date): Student -> (int, int) {
    (s: Student) => (-SortRank(StatusOf(fees, payments, s.id, today)), 0)
  }

  function RankOf(s: Student, fees: seq<Fee>, payments: seq<Payment>, today: Date): int {
    SortRank(StatusOf(fees, payments, s.id, today))
  }

  /** sortedStudents: the cell's students by status rank, DELINQUENT first, then
      PENDING, then PAID, with nobody added or lost. */
  function SortedCards(scheduled: seq<Student>, fees: seq<Fee>, payments: seq<Payment>, today: Date): (r: seq<Student>)
    ensures multiset(r) == multiset(scheduled)
    ensures forall i, j :: 0 <= i < j < |r| ==> RankOf(r[i], fees, payments, today) <= RankOf(r[j], fees, payments, today)
  {
    var r := SortDesc(scheduled, CardKey(fees, payments, today));
    assert forall i, j :: 0 <= i < j < |r| ==> !Above(CardKey(fees, payments, today)(r[j]), CardKey(fees, payments, today)(r[i]));
    r
  }

  /** handleDrop: a card dropped on the cell it came from changes nothing and the move
      is not attempted; otherwise the store's move runs and its answer is returned. */
  method HandleDrop(store: Store.AppStore, studentId: string, fromDay: DayOfWeek, fromTime: string, toDay: DayOfWeek, toTime: string)
    returns (attempted: bool, success: bool)
    requires store.Valid()
    modifies store
    ensures store.Valid()
    ensures fromDay == toDay && fromTime == toTime ==> !attempted && store.state == old(store.state)
    ensures !(fromDay == toDay && fromTime == toTime) ==>
              attempted &&
              var r := Schedule.MoveStudentSchedule(old(store.state.students), old(store.state.maxCapacityPerShift), studentId, fromDay, fromTime, toDay, toTime);
              store.state == old(store.state).(students := r.students) && success == r.success
  {
    if fromDay == toDay && fromTime == toTime {
      return false, false;
    }
    success := store.MoveStudentSchedule(studentId, fromDay, fromTime, toDay, toTime);
    attempted := true;
  }

  lemma {:induction false} PaidForSnoc(payments: seq<Payment>, p: Payment, studentId: string, month: int, year: int)
    ensures PaidFor(payments + [p], studentId, month, year) ==
            PaidFor(payments, studentId, month, year) +
            (if p.studentId == studentId && p.month == month && p.year == year then p.amount else 0)
  {
    if payments == [] {
      assert payments + [p] == [p];
      assert [p][1..] == [];
    } else {
      assert (payments + [p])[1..] == payments[1..] + [p];
      PaidForSnoc(payments[1..], p, studentId, month, year);
    }
  }

  /** Under FeesUnique a student's fee for a period is the only one. */
  lemma FeeOfPeriodUnique(fees: seq<Fee>, f: Fee, g: Fee)
    requires FeesUnique(fees) && f in fees && g in fees
    ensures f.studentId == g.studentId && f.month == g.month && f.year == g.year ==> f == g
  {
    var i :| 0 <= i < |fees| && fees[i] == f;
    var j :| 0 <= j < |fees| && fees[j] == g;
    assert f.studentId == g.studentId && f.month == g.month && f.year == g.year ==> i == j;
  }

  /** Paying the oldest debt entry's balance takes its period out of the student's debt. */
  lemma SettleClearsPeriod(fees: seq<Fee>, payments: seq<Payment>, studentId: string, date: Date, newId: string)
    requires FeesUnique(fees)
    requires |StudentDebt(fees, payments, studentId)| > 0
    ensures var d := StudentDebt(fees, payments, studentId)[0];
            var after := payments + [Payment(newId, studentId, d.month, d.year, d.owed - d.paid, date)];
            forall e :: e in StudentDebt(fees, after, studentId) ==> !(e.month == d.month && e.year == d.year)
  {
    var debt := StudentDebt(fees, payments, studentId);
    var d := debt[0];
    var p := Payment(newId, studentId, d.month, d.year, d.owed - d.paid, date);
    var after := payments + [p];
    StudentDebtMembers(fees, payments, studentId, d);
    assert d in debt;
    var f0 :| f0 in fees && f0.studentId == studentId && d == EntryOf(f0, payments, studentId) && d.paid < d.owed;
    PaidForSnoc(payments, p, studentId, d.month, d.year);
    forall e | e in StudentDebt(fees, after, studentId) ensures !(e.month == d.month && e.year == d.year) {
      StudentDebtMembers(fees, after, studentId, e);
      var f :| f in fees && f.studentId == studentId && e == EntryOf(f, after, studentId) && e.paid < e.owed;
      FeeOfPeriodUnique(fees, f, f0);
    }
  }

  /** "Saldar Deuda Actual": pays the balance of the student's first outstanding
      period; with nothing outstanding no payment is added. */
  method SettleCurrentDebt(store: Store.AppStore, studentId: string, date: Date, newId: string) returns (paid: bool)
    requires store.Valid()
    modifies store
    ensures store.Valid()
    ensures var debt := StudentDebt(old(store.state.fees), old(store.state.payments), studentId);
            (paid <==> |debt| > 0) &&
            (|debt| == 0 ==> store.state == old(store.state)) &&
            (|debt| > 0 ==> store.state == old(store.state).(payments := old(store.state.payments) +
                              [Payment(newId, studentId, debt[0].month, debt[0].year, debt[0].owed - debt[0].paid, date)]))
    ensures paid ==> forall e :: e in store.StudentDebt(studentId) ==>
                       !(e.month == old(store.StudentDebt(studentId))[0].month && e.year == old(store.StudentDebt(studentId))[0].year)
  {
    var debt := store.StudentDebt(studentId);
    if |debt| == 0 {
      return false;
    }
    SettleClearsPeriod(store.state.fees, store.state.payments, studentId, date, newId);
    store.AddPayment(Payment("", studentId, debt[0].month, debt[0].year, debt[0].owed - debt[0].paid, date), newId);
    paid := true;
  }
}
