/** The billing status engine: per-student outstanding periods, the
    PAID / PENDING / DELINQUENT classification against the simulated date,
    and the total delinquent debt (context/AppContext.tsx). */
module Billing {
  import opened Types
  import opened Sorting

  /** One outstanding period of a student, as getStudentDebt returns it. */
  datatype DebtEntry = DebtEntry(month: int, year: int, owed: int, paid: int)

  /** The sum of the student's payments attributed to the period. */
  function PaidFor(payments: seq<Payment>, studentId: string, month: int, year: int): int {
    if payments == [] then 0
    else
      (if payments[0].studentId == studentId && payments[0].month == month && payments[0].year == year
       then payments[0].amount else 0) +
      PaidFor(payments[1..], studentId, month, year)
  }

  /** The debt view of one fee of the student. */
  function EntryOf(f: Fee, payments: seq<Payment>, studentId: string): DebtEntry {
    DebtEntry(f.month, f.year, f.amountOwed, PaidFor(payments, studentId, f.month, f.year))
  }

  /** getStudentDebt: the student's fees, in fee order, whose payments fall short of the amount owed. */
  function StudentDebt(fees: seq<Fee>, payments: seq<Payment>, studentId: string): (r: seq<DebtEntry>)
    ensures |r| <= |fees|
    ensures forall d :: d in r ==> d.paid < d.owed && d.paid == PaidFor(payments, studentId, d.month, d.year)
  {
    if fees == [] then []
    else
      var d := EntryOf(fees[0], payments, studentId);
      (if fees[0].studentId == studentId && d.paid < d.owed then [d] else []) +
      StudentDebt(fees[1..], payments, studentId)
  }

  /** An entry is in the student's debt exactly when it comes from one of the
      student's fees and the period's payments sum to less than the amount owed. */
  lemma {:induction false} StudentDebtMembers(fees: seq<Fee>, payments: seq<Payment>, studentId: string, d: DebtEntry)
    ensures d in StudentDebt(fees, payments, studentId) <==>
              exists f :: f in fees && f.studentId == studentId && d == EntryOf(f, payments, studentId) && d.paid < d.owed
  {
    if fees != [] {
      StudentDebtMembers(fees[1..], payments, studentId, d);
      assert forall f :: f in fees <==> f == fees[0] || f in fees[1..];
    }
  }

  /** The outstanding balance of a debt list: the sum of owed - paid. */
  function DebtBalance(debt: seq<DebtEntry>): int {
    if debt == [] then 0 else debt[0].owed - debt[0].paid + DebtBalance(debt[1..])
  }

  /** (month, year) lies strictly before the simulated month. */
  predicate BeforeToday(month: int, year: int, today: Date) {
    year < today.year || (year == today.year && month < today.month)
  }

  predicate InCurrentMonth(month: int, year: int, today: Date) {
    month == today.month && year == today.year
  }

  function HasPastDebt(debt: seq<DebtEntry>, today: Date): (b: bool)
    ensures b <==> exists d :: d in debt && BeforeToday(d.month, d.year, today)
  {
    if debt == [] then false
    else
      assert forall d :: d in debt <==> d == debt[0] || d in debt[1..];
      BeforeToday(debt[0].month, debt[0].year, today) || HasPastDebt(debt[1..], today)
  }

  /** The first debt entry of the simulated month, if any. */
  function FindCurrent(debt: seq<DebtEntry>, today: Date): (r: Option<DebtEntry>)
    ensures r.Some? ==> r.value in debt && InCurrentMonth(r.value.month, r.value.year, today)
    ensures r.None? ==> forall d :: d in debt ==> !InCurrentMonth(d.month, d.year, today)
  {
    if debt == [] then None
    else if InCurrentMonth(debt[0].month, debt[0].year, today) then Some(debt[0])
    else
      assert forall d :: d in debt <==> d == debt[0] || d in debt[1..];
      FindCurrent(debt[1..], today)
  }

  /** getStudentStatus: PARTIAL is never produced; PAID exactly when nothing is
      outstanding for the simulated month or earlier (later periods do not count);
      PENDING exactly when nothing earlier is outstanding, the simulated month is
      outstanding with nothing paid towards it and the day is at most 10;
      DELINQUENT exactly when an earlier period is outstanding, or the simulated
      month is outstanding and either partly paid or past day 10. */
  function StatusOf(fees: seq<Fee>, payments: seq<Payment>, studentId: string, today: Date): (r: PaymentStatus)
    ensures r != Partial
    ensures r == Paid <==>
              forall d :: d in StudentDebt(fees, payments, studentId) ==>
                !BeforeToday(d.month, d.year, today) && !InCurrentMonth(d.month, d.year, today)
    ensures r == Pending <==>
              (forall d :: d in StudentDebt(fees, payments, studentId) ==> !BeforeToday(d.month, d.year, today)) &&
              (exists d :: d in StudentDebt(fees, payments, studentId) && InCurrentMonth(d.month, d.year, today)) &&
              PaidFor(payments, studentId, today.month, today.year) <= 0 && today.day <= 10
    ensures r == Delinquent <==>
              (exists d :: d in StudentDebt(fees, payments, studentId) && BeforeToday(d.month, d.year, today)) ||
              ((exists d :: d in StudentDebt(fees, payments, studentId) && InCurrentMonth(d.month, d.year, today)) &&
               (PaidFor(payments, studentId, today.month, today.year) > 0 || today.day > 10))
  {
    var debt := StudentDebt(fees, payments, studentId);
    if debt == [] then Paid
    else if HasPastDebt(debt, today) then Delinquent
    else match FindCurrent(debt, today)
      case Some(d) => if d.paid > 0 then Delinquent else if today.day <= 10 then Pending else Delinquent
      case None => Paid
  }

  /** What a student adds to the total delinquent debt. */
  function DelinquentContribution(s: Student, fees: seq<Fee>, payments: seq<Payment>, today: Date): int {
    if s.status == Active && StatusOf(fees, payments, s.id, today) == Delinquent
    then DebtBalance(StudentDebt(fees, payments, s.id)) else 0
  }

  /** getTotalDelinquentDebt: over the roster, the outstanding balance of every
      active student whose status is DELINQUENT. */
  function TotalDelinquentDebt(students: seq<Student>, fees: seq<Fee>, payments: seq<Payment>, today: Date): int {
    SumBy(students, s => DelinquentContribution(s, fees, payments, today))
  }

  /** Every outstanding list has a positive balance. */
  lemma {:induction false} DebtBalancePositive(debt: seq<DebtEntry>)
    requires forall d :: d in debt ==> d.paid < d.owed
    ensures debt != [] ==> DebtBalance(debt) > 0
    ensures DebtBalance(debt) >= 0
  {
    if debt != [] {
      assert debt[0] in debt;
      DebtBalancePositive(debt[1..]);
    }
  }

  lemma ContributionBounds(s: Student, fees: seq<Fee>, payments: seq<Payment>, today: Date)
    ensures DelinquentContribution(s, fees, payments, today) >= 0
    ensures DelinquentContribution(s, fees, payments, today) > 0 <==>
              s.status == Active && StatusOf(fees, payments, s.id, today) == Delinquent
  {
    DebtBalancePositive(StudentDebt(fees, payments, s.id));
  }

  /** The total delinquent debt is never negative, and it is positive exactly
      when some active roster student is DELINQUENT. */
  lemma {:induction false} TotalDelinquentDebtSign(students: seq<Student>, fees: seq<Fee>, payments: seq<Payment>, today: Date)
    ensures TotalDelinquentDebt(students, fees, payments, today) >= 0
    ensures TotalDelinquentDebt(students, fees, payments, today) > 0 <==>
              exists s :: s in students && s.status == Active && StatusOf(fees, payments, s.id, today) == Delinquent
  {
    if students != [] {
      ContributionBounds(students[0], fees, payments, today);
      TotalDelinquentDebtSign(students[1..], fees, payments, today);
      assert forall s :: s in students <==> s == students[0] || s in students[1..];
    }
  }

  /** Adding a roster entry that is inactive or not delinquent leaves the total unchanged. */
  lemma NonDelinquentAddsNothing(students: seq<Student>, s: Student, fees: seq<Fee>, payments: seq<Payment>, today: Date)
    requires s.status == Inactive || StatusOf(fees, payments, s.id, today) != Delinquent
    ensures TotalDelinquentDebt(students + [s], fees, payments, today) == TotalDelinquentDebt(students, fees, payments, today)
  {
    var f := (t: Student) => DelinquentContribution(t, fees, payments, today);
    SumByConcat(students, [s], f);
    assert [s][1..] == [];
  }
}
