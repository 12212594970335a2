/** The finances page (pages/Finances.tsx): the month's income and expense cards,
    the twelve-month chart of a year, the year selector and the expense form. */
module Finances {
  import opened Types
  import opened Sorting
  import Store
  import Records

  function PaymentAmount(p: Payment): int { p.amount }
  function ExpenseAmount(e: Expense): int { e.amount }

  /** totalPaymentsMonth: payments whose attributed period is today's month; the
      day the money came in plays no part. */
  function TotalPaymentsMonth(payments: seq<Payment>, today: Date): int {
    SumBy(Filter(payments, (p: Payment) => p.month == today.month && p.year == today.year), PaymentAmount)
  }

  /** totalExpensesMonth: expenses dated in today's month. */
  function TotalExpensesMonth(expenses: seq<Expense>, today: Date): int {
    SumBy(Filter(expenses, (e: Expense) => e.date.month == today.month && e.date.year == today.year), ExpenseAmount)
  }

  /** A new payment moves the month's income card by its amount exactly when it is
      attributed to the month, whatever its date; a new expense moves the expense
      card exactly when it is dated in the month. */
  lemma MonthCardsSelectors(payments: seq<Payment>, expenses: seq<Expense>, today: Date, p: Payment, e: Expense)
    ensures TotalPaymentsMonth(payments + [p], today) ==
            TotalPaymentsMonth(payments, today) + (if p.month == today.month && p.year == today.year then p.amount else 0)
    ensures TotalExpensesMonth(expenses + [e], today) ==
            TotalExpensesMonth(expenses, today) + (if e.date.month == today.month && e.date.year == today.year then e.amount else 0)
  {
    SumFilterSnoc(payments, p, (p: Payment) => p.month == today.month && p.year == today.year, PaymentAmount);
    SumFilterSnoc(expenses, e, (e: Expense) => e.date.month == today.month && e.date.year == today.year, ExpenseAmount);
  }

  predicate PaidIn(p: Payment, year: int, month: int) { p.year == year && p.month == month }
  predicate SpentIn(e: Expense, year: int, month: int) { e.date.year == year && e.date.month == month }

  function MonthIncome(payments: seq<Payment>, year: int, month: int): int {
    SumBy(Filter(payments, (p: Payment) => PaidIn(p, year, month)), PaymentAmount)
  }

  function MonthExpenses(expenses: seq<Expense>, year: int, month: int): int {
    SumBy(Filter(expenses, (e: Expense) => SpentIn(e, year, month)), ExpenseAmount)
  }

  /** One bar group of the yearly chart; the month's short name is presentation. */
  datatype MonthSummary = MonthSummary(month: int, ingresos: int, gastos: int, utilidad: int)

  function Ingresos(m: MonthSummary): int { m.ingresos }

  /** yearlyData: one entry per month 0..11 of the selected year. */
  function YearlyData(payments: seq<Payment>, expenses: seq<Expense>, year: int): (r: seq<MonthSummary>)
    ensures |r| == 12
    ensures forall m :: 0 <= m < 12 ==>
              r[m].month == m && r[m].ingresos == MonthIncome(payments, year, m) &&
              r[m].gastos == MonthExpenses(expenses, year, m) && r[m].utilidad == r[m].ingresos - r[m].gastos
  {
    seq(12, m requires 0 <= m < 12 =>
      MonthSummary(m, MonthIncome(payments, year, m), MonthExpenses(expenses, year, m),
                   MonthIncome(payments, year, m) - MonthExpenses(expenses, year, m)))
  }

  /** The chart's bar for today's month shows the same figures as the month cards. */
  lemma ChartMatchesCards(payments: seq<Payment>, expenses: seq<Expense>, today: Date)
    requires 0 <= today.month < 12
    ensures YearlyData(payments, expenses, today.year)[today.month].ingresos == TotalPaymentsMonth(payments, today)
    ensures YearlyData(payments, expenses, today.year)[today.month].gastos == TotalExpensesMonth(expenses, today)
  {
    FilterSame(payments, (p: Payment) => PaidIn(p, today.year, today.month),
                         (p: Payment) => p.month == today.month && p.year == today.year);
    FilterSame(expenses, (e: Expense) => SpentIn(e, today.year, today.month),
                         (e: Expense) => e.date.month == today.month && e.date.year == today.year);
  }

  function YearIncomeBelow(payments: seq<Payment>, year: int, n: int): int {
    SumBy(Filter(payments, (p: Payment) => p.year == year && 0 <= p.month < n), PaymentAmount)
  }

  lemma {:induction false} IncomePrefix(payments: seq<Payment>, expenses: seq<Expense>, year: int, n: nat)
    requires n <= 12
    ensures SumBy(YearlyData(payments, expenses, year)[..n], Ingresos) == YearIncomeBelow(payments, year, n)
  {
    var rows := YearlyData(payments, expenses, year);
    if n == 0 {
      FilterNone(payments, (p: Payment) => p.year == year && 0 <= p.month < 0);
    } else {
      IncomePrefix(payments, expenses, year, n - 1);
      assert rows[..n] == rows[..n - 1] + [rows[n - 1]];
      SumByConcat(rows[..n - 1], [rows[n - 1]], Ingresos);
      assert [rows[n - 1]][1..] == [];
      SumFilterSplit(payments, (p: Payment) => p.year == year && 0 <= p.month < n,
                               (p: Payment) => p.year == year && 0 <= p.month < n - 1,
                               (p: Payment) => PaidIn(p, year, n - 1), PaymentAmount);
    }
  }

  /** The twelve bars of a year add up to that year's payments attributed to months 0..11. */
  lemma YearlyIncomeTotal(payments: seq<Payment>, expenses: seq<Expense>, year: int)
    ensures SumBy(YearlyData(payments, expenses, year), Ingresos) ==
            SumBy(Filter(payments, (p: Payment) => p.year == year && 0 <= p.month < 12), PaymentAmount)
  {
    var rows := YearlyData(payments, expenses, year);
    IncomePrefix(payments, expenses, year, 12);
    assert rows[..12] == rows;
  }

  ghost predicate OptionYear(payments: seq<Payment>, expenses: seq<Expense>, currentYear: int, y: int) {
    y == currentYear || (exists p :: p in payments && p.year == y) || (exists e :: e in expenses && e.date.year == y)
  }

  /** Every value occurs at most once. */
  ghost predicate NoRepeats(s: seq<int>) {
    forall x :: multiset(s)[x] <= 1
  }

  lemma TwiceCounted(s: seq<int>, i: int, j: int)
    requires 0 <= i < j < |s|
    ensures s[i] == s[j] ==> multiset(s)[s[i]] >= 2
  {
    assert s == s[..j] + s[j..];
    assert s[i] in s[..j];
    assert s[j] in s[j..];
  }

  function YearKey(y: int): (int, int) { (y, 0) }

  /** Set.prototype.add on a Set kept in insertion order. */
  function SetAdd(years: seq<int>, y: int): (r: seq<int>)
    requires NoRepeats(years)
    ensures NoRepeats(r)
    ensures forall x :: x in r <==> x in years || x == y
  {
    if y in years then years else years + [y]
  }

  ghost predicate PaymentYearBefore(payments: seq<Payment>, i: int, y: int) {
    exists k :: 0 <= k < i && k < |payments| && payments[k].year == y
  }

  ghost predicate ExpenseYearBefore(expenses: seq<Expense>, i: int, y: int) {
    exists k :: 0 <= k < i && k < |expenses| && expenses[k].date.year == y
  }

  lemma PaymentYearStep(payments: seq<Payment>, i: int, y: int)
    requires 0 <= i < |payments|
    ensures PaymentYearBefore(payments, i + 1, y) <==> PaymentYearBefore(payments, i, y) || payments[i].year == y
  {
  }

  lemma ExpenseYearStep(expenses: seq<Expense>, i: int, y: int)
    requires 0 <= i < |expenses|
    ensures ExpenseYearBefore(expenses, i + 1, y) <==> ExpenseYearBefore(expenses, i, y) || expenses[i].date.year == y
  {
  }

  lemma YearsSeen(payments: seq<Payment>, expenses: seq<Expense>, currentYear: int, y: int)
    ensures OptionYear(payments, expenses, currentYear, y) <==>
            y == currentYear || PaymentYearBefore(payments, |payments|, y) || ExpenseYearBefore(expenses, |expenses|, y)
  {
    if exists p :: p in payments && p.year == y {
      var p :| p in payments && p.year == y;
      var k :| 0 <= k < |payments| && payments[k] == p;
    }
    if exists e :: e in expenses && e.date.year == y {
      var e :| e in expenses && e.date.year == y;
      var k :| 0 <= k < |expenses| && expenses[k] == e;
    }
  }

  /** Sorting values that occur once gives a strictly descending list of the same values. */
  lemma SortedDistinct(years: seq<int>)
    requires NoRepeats(years)
    ensures forall y :: y in SortDesc(years, YearKey) <==> y in years
    ensures forall i, j :: 0 <= i < j < |SortDesc(years, YearKey)| ==> SortDesc(years, YearKey)[i] > SortDesc(years, YearKey)[j]
  {
    var r := SortDesc(years, YearKey);
    SortDescMembers(years, YearKey);
    forall i, j | 0 <= i < j < |r| ensures r[i] > r[j] {
      assert !Above(YearKey(r[j]), YearKey(r[i]));
      TwiceCounted(r, i, j);
    }
  }

  /** yearsOptions: the current year, every payment's year and every expense's year,
      each once, newest first. */
  method YearsOptions(payments: seq<Payment>, expenses: seq<Expense>, currentYear: int) returns (r: seq<int>)
    ensures forall y :: y in r <==> OptionYear(payments, expenses, currentYear, y)
    ensures forall i, j :: 0 <= i < j < |r| ==> r[i] > r[j]
  {
    var years := [currentYear];
    for i := 0 to |payments|
      invariant NoRepeats(years)
      invariant forall y :: y in years <==> y == currentYear || PaymentYearBefore(payments, i, y)
    {
      forall y ensures PaymentYearBefore(payments, i + 1, y) <==> PaymentYearBefore(payments, i, y) || payments[i].year == y {
        PaymentYearStep(payments, i, y);
      }
      years := SetAdd(years, payments[i].year);
    }
    for i := 0 to |expenses|
      invariant NoRepeats(years)
      invariant forall y :: y in years <==>
                  y == currentYear || PaymentYearBefore(payments, |payments|, y) || ExpenseYearBefore(expenses, i, y)
    {
      forall y ensures ExpenseYearBefore(expenses, i + 1, y) <==> ExpenseYearBefore(expenses, i, y) || expenses[i].date.year == y {
        ExpenseYearStep(expenses, i, y);
      }
      years := SetAdd(years, expenses[i].date.year);
    }
    r := SortDesc(years, YearKey);
    SortedDistinct(years);
    forall y ensures y in r <==> OptionYear(payments, expenses, currentYear, y) {
      YearsSeen(payments, expenses, currentYear, y);
    }
  }

  /** handleSubmit: an amount of zero or less changes nothing; a form opened on an
      expense (a non-empty id, since the empty string is falsy) updates it; any other
      adds a new expense. */
  method HandleSubmit(store: Store.AppStore, editingId: Option<string>, form: Expense, newId: string)
    requires store.Valid()
    modifies store
    ensures store.Valid()
    ensures form.amount <= 0 ==> store.state == old(store.state)
    ensures form.amount > 0 && editingId.Some? && editingId.value != "" ==>
              store.state == old(store.state).(expenses := Records.ReplaceExpense(old(store.state.expenses), form.(id := editingId.value)))
    ensures form.amount > 0 && !(editingId.Some? && editingId.value != "") ==>
              store.state == old(store.state).(expenses := old(store.state.expenses) + [form.(id := newId)])
  {
    if form.amount <= 0 {
      return;
    }
    if editingId.Some? && editingId.value != "" {
      store.UpdateExpense(editingId.value, form);
    } else {
      store.AddExpense(form, newId);
    }
  }
}
