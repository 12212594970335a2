/** The dashboard's derived views and its express payment panel
    (pages/Dashboard.tsx): the delinquent list, the search for a student to
    charge, the selection of periods and the allocation of one amount over them. */
module Dashboard {
  import opened Types
  import opened Sorting
  import opened Billing
  import Store
  import Schedule

  /** One outstanding period offered for payment. */
  datatype PendingFee = PendingFee(month: int, year: int, owed: int, paid: int, balance: int)

  /** A search result: a student with the outstanding periods and their total. */
  datatype Candidate = Candidate(id: string, name: string, totalDebt: int, pendingMonths: seq<PendingFee>)

  /** The `${month}-${year}` key of a period: as months are 0..11, distinct periods have distinct keys. */
  function KeyOf(p: PendingFee): (int, int) {
    (p.month, p.year)
  }

  function Balance(p: PendingFee): int {
    p.balance
  }

  function PendingOf(debt: seq<DebtEntry>): (r: seq<PendingFee>)
    ensures |r| == |debt|
    ensures forall k :: 0 <= k < |r| ==>
              r[k] == PendingFee(debt[k].month, debt[k].year, debt[k].owed, debt[k].paid, debt[k].owed - debt[k].paid)
  {
    if debt == [] then []
    else [PendingFee(debt[0].month, debt[0].year, debt[0].owed, debt[0].paid, debt[0].owed - debt[0].paid)] + PendingOf(debt[1..])
  }

  lemma {:induction false} PendingBalance(debt: seq<DebtEntry>)
    ensures SumBy(PendingOf(debt), Balance) == DebtBalance(debt)
  {
    if debt != [] {
      PendingBalance(debt[1..]);
      assert PendingOf(debt)[1..] == PendingOf(debt[1..]);
    }
  }

  /** The search card of one student. */
  function CandidateFor(s: Student, fees: seq<Fee>, payments: seq<Payment>): (c: Candidate)
    ensures c.id == s.id && c.name == s.name
    ensures c.totalDebt == DebtBalance(StudentDebt(fees, payments, s.id)) >= 0
    ensures forall p :: p in c.pendingMonths ==> p.balance > 0 && p.balance == p.owed - p.paid
    ensures |c.pendingMonths| == |StudentDebt(fees, payments, s.id)|
  {
    var debt := StudentDebt(fees, payments, s.id);
    PendingBalance(debt);
    DebtBalancePositive(debt);
    var pm := PendingOf(debt);
    assert forall p :: p in pm ==> p.balance > 0 by {
      forall p | p in pm ensures p.balance > 0 {
        var k :| 0 <= k < |pm| && pm[k] == p;
        assert debt[k] in debt;
      }
    }
    Candidate(s.id, s.name, SumBy(pm, Balance), pm)
  }

  /** name.includes(query). */
  predicate Contains(name: string, query: string)
    decreases |name|
  {
    |query| <= |name| && (name[..|query|] == query || Contains(name[1..], query))
  }

  /** The number of roster entries whose name contains the query. */
  function MatchCount(students: seq<Student>, query: string): nat {
    if students == [] then 0
    else (if Contains(students[0].name, query) then 1 else 0) + MatchCount(students[1..], query)
  }

  function CandidatesOf(students: seq<Student>, fees: seq<Fee>, payments: seq<Payment>, query: string): (r: seq<Candidate>)
    ensures |r| == MatchCount(students, query)
    ensures forall c :: c in r <==> exists s :: s in students && Contains(s.name, query) && c == CandidateFor(s, fees, payments)
  {
    if students == [] then []
    else
      assert forall s :: s in students <==> s == students[0] || s in students[1..];
      (if Contains(students[0].name, query) then [CandidateFor(students[0], fees, payments)] else []) +
      CandidatesOf(students[1..], fees, payments, query)
  }

  function CandidateKey(c: Candidate): (int, int) {
    (c.totalDebt, 0)
  }

  /** searchResults: nothing for an empty query; otherwise the matching students'
      cards, largest total debt first. */
  function SearchResults(students: seq<Student>, fees: seq<Fee>, payments: seq<Payment>, query: string): (r: seq<Candidate>)
    ensures query == [] ==> r == []
    ensures query != [] ==> |r| == MatchCount(students, query)
    ensures query != [] ==> multiset(r) == multiset(CandidatesOf(students, fees, payments, query))
    ensures query != [] ==> forall c :: c in r <==> exists s :: s in students && Contains(s.name, query) && c == CandidateFor(s, fees, payments)
    ensures SortedDesc(r, CandidateKey)
  {
    if query == [] then []
    else
      var cs := CandidatesOf(students, fees, payments, query);
      SortDescMembers(cs, CandidateKey);
      SortDesc(cs, CandidateKey)
  }

  /** The selected keys after toggling one: removed if present, otherwise appended. */
  function ToggleKeys(keys: seq<(int, int)>, key: (int, int)): (r: seq<(int, int)>)
    ensures key in keys ==> forall k :: k in r <==> k in keys && k != key
    ensures key !in keys ==> r == keys + [key]
  {
    if key in keys then Filter(keys, k => k != key) else keys + [key]
  }

  /** Toggling a key twice gives back the selected set, and the very same list when it was not selected. */
  lemma ToggleKeysTwice(keys: seq<(int, int)>, key: (int, int))
    ensures forall k :: k in ToggleKeys(ToggleKeys(keys, key), key) <==> k in keys
    ensures key !in keys ==> ToggleKeys(ToggleKeys(keys, key), key) == keys
  {
    if key !in keys {
      var p := (k: (int, int)) => k != key;
      FilterConcat(keys, [key], p);
      FilterAll(keys, p);
      assert Filter([key], p) == [];
      assert key in keys + [key];
    } else {
      assert key in ToggleKeys(keys, key) + [key];
    }
  }

  /** pendingMonths.map(key). */
  function KeysOf(pending: seq<PendingFee>): (r: seq<(int, int)>)
    ensures |r| == |pending| && forall k :: 0 <= k < |r| ==> r[k] == KeyOf(pending[k])
  {
    if pending == [] then [] else [KeyOf(pending[0])] + KeysOf(pending[1..])
  }

  /** Selecting every key selects every pending period. */
  lemma SelectAllKeys(pending: seq<PendingFee>)
    ensures SelectedFees(pending, KeysOf(pending)) == pending
  {
    var keys := KeysOf(pending);
    forall p | p in pending ensures KeyOf(p) in keys {
      var k :| 0 <= k < |pending| && pending[k] == p;
      assert keys[k] == KeyOf(p);
    }
    FilterAll(pending, p => KeyOf(p) in keys);
  }

  /** The periods a key list selects, in pending order. */
  function SelectedFees(pending: seq<PendingFee>, keys: seq<(int, int)>): (r: seq<PendingFee>)
    ensures forall p :: p in r <==> p in pending && KeyOf(p) in keys
    ensures Subseq(r, pending)
  {
    FilterIsSubseq(pending, p => KeyOf(p) in keys);
    Filter(pending, p => KeyOf(p) in keys)
  }

  /** One payment of the express charge: a period and the amount given to it. */
  datatype Grant = Grant(fee: PendingFee, amount: int)

  function Amount(g: Grant): int {
    g.amount
  }

  function Min(a: int, b: int): int {
    if a <= b then a else b
  }

  /** The express allocation: walking the selected periods in order, each gets
      min(remaining, balance) while something remains. */
  function Allocate(fees: seq<PendingFee>, remaining: int): seq<Grant> {
    if fees == [] then []
    else if remaining <= 0 then Allocate(fees[1..], remaining)
    else
      var amount := Min(remaining, fees[0].balance);
      [Grant(fees[0], amount)] + Allocate(fees[1..], remaining - amount)
  }

  /** The grants go to a prefix of the selected periods, in order; every grant but
      the last pays its period in full, and none pays beyond the balance. */
  lemma {:induction false} AllocateOrder(fees: seq<PendingFee>, remaining: int)
    ensures var g := Allocate(fees, remaining);
            |g| <= |fees| &&
            (forall k :: 0 <= k < |g| ==> g[k].fee == fees[k] && g[k].amount <= fees[k].balance) &&
            (forall k :: 0 <= k < |g| - 1 ==> g[k].amount == fees[k].balance)
  {
    if fees != [] {
      AllocateOrder(fees[1..], remaining);
      if remaining > 0 {
        var amount := Min(remaining, fees[0].balance);
        AllocateOrder(fees[1..], remaining - amount);
        if amount < fees[0].balance {
          AllocateNothingLeft(fees[1..], remaining - amount);
        }
      } else {
        AllocateNothingLeft(fees[1..], remaining);
      }
    }
  }

  lemma {:induction false} AllocateNothingLeft(fees: seq<PendingFee>, remaining: int)
    requires remaining <= 0
    ensures Allocate(fees, remaining) == []
  {
    if fees != [] {
      AllocateNothingLeft(fees[1..], remaining);
    }
  }

  /** With positive balances and a non-negative amount, every grant is positive, the
      grants add up to min(amount, total balance), and what remains is never negative. */
  lemma {:induction false} AllocateTotal(fees: seq<PendingFee>, remaining: int)
    requires forall p :: p in fees ==> p.balance > 0
    requires remaining >= 0
    ensures forall g :: g in Allocate(fees, remaining) ==> g.amount > 0
    ensures SumBy(Allocate(fees, remaining), Amount) == Min(remaining, SumBy(fees, Balance))
    ensures remaining - SumBy(Allocate(fees, remaining), Amount) >= 0
  {
    if fees != [] {
      assert fees[0] in fees;
      assert forall p :: p in fees[1..] ==> p in fees;
      if remaining == 0 {
        AllocateNothingLeft(fees, remaining);
        SumPositive(fees);
      } else {
        var amount := Min(remaining, fees[0].balance);
        AllocateTotal(fees[1..], remaining - amount);
        var g := Allocate(fees, remaining);
        assert g[1..] == Allocate(fees[1..], remaining - amount);
        SumPositive(fees[1..]);
      }
    }
  }

  lemma {:induction false} SumPositive(fees: seq<PendingFee>)
    requires forall p :: p in fees ==> p.balance > 0
    ensures SumBy(fees, Balance) >= 0
  {
    if fees != [] {
      assert fees[0] in fees;
      assert forall p :: p in fees[1..] ==> p in fees;
      SumPositive(fees[1..]);
    }
  }

  /** The payment recorded for a grant. */
  function GrantPayment(g: Grant, studentId: string, date: Date, id: string): Payment {
    Payment(id, studentId, g.fee.month, g.fee.year, g.amount, date)
  }

  function PaymentsFor(grants: seq<Grant>, studentId: string, date: Date, ids: nat -> string): (r: seq<Payment>)
    ensures |r| == |grants|
    ensures forall k :: 0 <= k < |r| ==> r[k] == GrantPayment(grants[k], studentId, date, ids(k))
  {
    seq(|grants|, k requires 0 <= k < |grants| => GrantPayment(grants[k], studentId, date, ids(k)))
  }

  /** One step of the allocation walk, at position j. */
  lemma AllocateStep(fees: seq<PendingFee>, j: int, remaining: int)
    requires 0 <= j < |fees|
    ensures Allocate(fees[j..], remaining) ==
            if remaining <= 0 then Allocate(fees[j + 1..], remaining)
            else [Grant(fees[j], Min(remaining, fees[j].balance))] + Allocate(fees[j + 1..], remaining - Min(remaining, fees[j].balance))
  {
    assert fees[j..][0] == fees[j] && fees[j..][1..] == fees[j + 1..];
  }

  /** The loop's account of the allocation carried one position further. */
  lemma AllocateAdvance(fees: seq<PendingFee>, amount: int, grants: seq<Grant>, j: int, remaining: int)
    requires 0 <= j < |fees|
    requires Allocate(fees, amount) == grants + Allocate(fees[j..], remaining)
    ensures remaining <= 0 ==> Allocate(fees, amount) == grants + Allocate(fees[j + 1..], remaining)
    ensures remaining > 0 ==>
              Allocate(fees, amount) ==
              (grants + [Grant(fees[j], Min(remaining, fees[j].balance))]) + Allocate(fees[j + 1..], remaining - Min(remaining, fees[j].balance))
  {
    AllocateStep(fees, j, remaining);
    var g := Grant(fees[j], Min(remaining, fees[j].balance));
    var rest := Allocate(fees[j + 1..], remaining - Min(remaining, fees[j].balance));
    assert grants + ([g] + rest) == (grants + [g]) + rest;
  }

  lemma PaymentsForSnoc(grants: seq<Grant>, g: Grant, studentId: string, date: Date, ids: nat -> string)
    ensures PaymentsFor(grants + [g], studentId, date, ids) == PaymentsFor(grants, studentId, date, ids) + [GrantPayment(g, studentId, date, ids(|grants|))]
  {
  }

  /** The loop of handleExpressPaymentSubmit: walks the selected periods with the
      remaining amount, adding one payment of min(remaining, balance) per period
      while something remains. */
  method PayAllocated(store: Store.AppStore, studentId: string, fees: seq<PendingFee>, amount: int, date: Date, ids: nat -> string)
    requires store.Valid()
    modifies store
    ensures store.Valid()
    ensures store.state == old(store.state).(payments := old(store.state.payments) + PaymentsFor(Allocate(fees, amount), studentId, date, ids))
  {
    var remaining := amount;
    ghost var grants: seq<Grant> := [];
    var made := 0;
    var j := 0;
    while j < |fees|
      invariant 0 <= j <= |fees|
      invariant store.Valid()
      invariant made == |grants|
      invariant Allocate(fees, amount) == grants + Allocate(fees[j..], remaining)
      invariant store.state == old(store.state).(payments := old(store.state.payments) + PaymentsFor(grants, studentId, date, ids))
    {
      AllocateAdvance(fees, amount, grants, j, remaining);
      if remaining > 0 {
        var paid := Min(remaining, fees[j].balance);
        store.AddPayment(Payment("", studentId, fees[j].month, fees[j].year, paid, date), ids(made));
        PaymentsForSnoc(grants, Grant(fees[j], paid), studentId, date, ids);
        grants := grants + [Grant(fees[j], paid)];
        remaining := remaining - paid;
        made := made + 1;
      }
      j := j + 1;
    }
    assert fees[j..] == [];
  }

  /** The express payment modal's state. */
  class ExpressPanel {
    var selected: Option<Candidate>
    var selectedKeys: seq<(int, int)>
    var expressAmount: int

    constructor ()
      ensures selected == None && selectedKeys == [] && expressAmount == 0
    {
      selected := None;
      selectedKeys := [];
      expressAmount := 0;
    }

    /** selectStudentForExpressPayment: selects only the first pending period, for
        its balance; a student with nothing pending is not selected. */
    method SelectStudent(c: Candidate)
      modifies this
      ensures |c.pendingMonths| > 0 ==>
                selected == Some(c) && selectedKeys == [KeyOf(c.pendingMonths[0])] && expressAmount == c.pendingMonths[0].balance
      ensures |c.pendingMonths| == 0 ==> unchanged(this)
    {
      if |c.pendingMonths| > 0 {
        selected := Some(c);
        selectedKeys := [KeyOf(c.pendingMonths[0])];
        expressAmount := c.pendingMonths[0].balance;
      }
    }

    /** toggleFeeSelection: the amount becomes the total balance of the selected periods. */
    method ToggleFee(month: int, year: int)
      modifies this
      ensures selected == old(selected)
      ensures selectedKeys == ToggleKeys(old(selectedKeys), (month, year))
      ensures expressAmount == if selected.Some? then SumBy(SelectedFees(selected.value.pendingMonths, selectedKeys), Balance) else 0
    {
      selectedKeys := ToggleKeys(selectedKeys, (month, year));
      if selected.Some? {
        expressAmount := SumBy(SelectedFees(selected.value.pendingMonths, selectedKeys), Balance);
      } else {
        expressAmount := 0;
      }
    }

    /** selectAllFees: every pending period, for the student's total debt. */
    method SelectAll()
      modifies this
      ensures selected == old(selected)
      ensures selected.None? ==> unchanged(this)
      ensures selected.Some? ==>
                selectedKeys == KeysOf(selected.value.pendingMonths) &&
                expressAmount == selected.value.totalDebt
    {
      if selected.Some? {
        selectedKeys := KeysOf(selected.value.pendingMonths);
        expressAmount := selected.value.totalDebt;
      }
    }

    /** handleExpressPaymentSubmit: without a student, a period or a positive amount
        nothing happens; otherwise one payment per granted period is added, in order,
        and the selection is cleared. */
    method Submit(store: Store.AppStore, date: Date, ids: nat -> string)
      requires store.Valid()
      modifies this, store
      ensures store.Valid()
      ensures old(selected.None? || selectedKeys == [] || expressAmount <= 0) ==>
                unchanged(this) && store.state == old(store.state)
      ensures old(selected.Some? && selectedKeys != [] && expressAmount > 0) ==>
                var grants := Allocate(SelectedFees(old(selected.value.pendingMonths), old(selectedKeys)), old(expressAmount));
                store.state == old(store.state).(payments := old(store.state.payments) + PaymentsFor(grants, old(selected.value.id), date, ids)) &&
                selected == None && selectedKeys == [] && expressAmount == old(expressAmount)
    {
      if selected.None? || selectedKeys == [] || expressAmount <= 0 {
        return;
      }
      PayAllocated(store, selected.value.id, SelectedFees(selected.value.pendingMonths, selectedKeys), expressAmount, date, ids);
      selected := None;
      selectedKeys := [];
    }
  }

  /** A row of the delinquent list. */
  datatype Debtor = Debtor(student: Student, totalDebt: int)

  function DebtorKey(d: Debtor): (int, int) {
    (d.totalDebt, 0)
  }

  function TotalDebtOf(d: Debtor): int {
    d.totalDebt
  }

  predicate IsDelinquent(s: Student, fees: seq<Fee>, payments: seq<Payment>, today: Date) {
    s.status == Active && StatusOf(fees, payments, s.id, today) == Delinquent
  }

  function DebtorsOf(students: seq<Student>, fees: seq<Fee>, payments: seq<Payment>, today: Date): (r: seq<Debtor>)
    ensures forall d :: d in r <==> exists s :: s in students && IsDelinquent(s, fees, payments, today) &&
                                        d == Debtor(s, DebtBalance(StudentDebt(fees, payments, s.id)))
  {
    if students == [] then []
    else
      assert forall s :: s in students <==> s == students[0] || s in students[1..];
      var s := students[0];
      (if IsDelinquent(s, fees, payments, today) then [Debtor(s, DebtBalance(StudentDebt(fees, payments, s.id)))] else []) +
      DebtorsOf(students[1..], fees, payments, today)
  }

  lemma {:induction false} DebtorsTotal(students: seq<Student>, fees: seq<Fee>, payments: seq<Payment>, today: Date)
    ensures SumBy(DebtorsOf(students, fees, payments, today), TotalDebtOf) == TotalDelinquentDebt(students, fees, payments, today)
  {
    if students != [] {
      var s := students[0];
      var head := if IsDelinquent(s, fees, payments, today) then [Debtor(s, DebtBalance(StudentDebt(fees, payments, s.id)))] else [];
      SumByConcat(head, DebtorsOf(students[1..], fees, payments, today), TotalDebtOf);
      DebtorsTotal(students[1..], fees, payments, today);
      if head != [] { assert head[1..] == []; }
    }
  }

  /** delinquentList: exactly the active DELINQUENT students, each with its
      outstanding balance, largest first; the balances add up to the total delinquent debt. */
  function DelinquentList(students: seq<Student>, fees: seq<Fee>, payments: seq<Payment>, today: Date): (r: seq<Debtor>)
    ensures forall d :: d in r <==> exists s :: s in students && IsDelinquent(s, fees, payments, today) &&
                                        d == Debtor(s, DebtBalance(StudentDebt(fees, payments, s.id)))
    ensures SortedDesc(r, DebtorKey)
    ensures SumBy(r, TotalDebtOf) == TotalDelinquentDebt(students, fees, payments, today)
  {
    var ds := DebtorsOf(students, fees, payments, today);
    DebtorsTotal(students, fees, payments, today);
    SumBySort(ds, DebtorKey, TotalDebtOf);
    SortDescMembers(ds, DebtorKey);
    SortDesc(ds, DebtorKey)
  }

  function PaymentAmount(p: Payment): int {
    p.amount
  }

  function ExpenseAmount(e: Expense): int {
    e.amount
  }

  /** The payments whose receipt date lies in the selected range. */
  function RangePayments(payments: seq<Payment>, inRange: Date -> bool): (r: seq<Payment>)
    ensures forall p :: p in r <==> p in payments && inRange(p.date)
    ensures Subseq(r, payments)
  {
    FilterIsSubseq(payments, (p: Payment) => inRange(p.date));
    Filter(payments, (p: Payment) => inRange(p.date))
  }

  function RangeExpenses(expenses: seq<Expense>, inRange: Date -> bool): (r: seq<Expense>)
    ensures forall e :: e in r <==> e in expenses && inRange(e.date)
    ensures Subseq(r, expenses)
  {
    FilterIsSubseq(expenses, (e: Expense) => inRange(e.date));
    Filter(expenses, (e: Expense) => inRange(e.date))
  }

  /** totalCollectedInPeriod. */
  function TotalCollected(payments: seq<Payment>, inRange: Date -> bool): int {
    SumBy(RangePayments(payments, inRange), PaymentAmount)
  }

  /** totalExpensesInPeriod. */
  function TotalExpenses(expenses: seq<Expense>, inRange: Date -> bool): int {
    SumBy(RangeExpenses(expenses, inRange), ExpenseAmount)
  }

  /** netProfit: the period's income less its spending. */
  function NetProfit(payments: seq<Payment>, expenses: seq<Expense>, inRange: Date -> bool): (r: int)
    ensures r + TotalExpenses(expenses, inRange) == TotalCollected(payments, inRange)
  {
    TotalCollected(payments, inRange) - TotalExpenses(expenses, inRange)
  }

  /** With no range restriction the totals are those of all records. */
  lemma NetProfitUnrestricted(payments: seq<Payment>, expenses: seq<Expense>, inRange: Date -> bool)
    requires forall d :: inRange(d)
    ensures TotalCollected(payments, inRange) == SumBy(payments, PaymentAmount)
    ensures NetProfit(payments, expenses, inRange) == SumBy(payments, PaymentAmount) - SumBy(expenses, ExpenseAmount)
  {
    var fp := (p: Payment) => inRange(p.date);
    var fe := (e: Expense) => inRange(e.date);
    forall p | p in payments ensures fp(p) { assert inRange(p.date); }
    forall e | e in expenses ensures fe(e) { assert inRange(e.date); }
    FilterAll(payments, fp);
    FilterAll(expenses, fe);
  }

  /** A row of the collected-income detail: one payer with the total and number of payments. */
  datatype Collected = Collected(id: string, name: string, total: int, count: int)

  function CollectedKey(c: Collected): (int, int) {
    (c.total, 0)
  }

  function CollectedTotal(c: Collected): int {
    c.total
  }

  function CollectedCount(c: Collected): int {
    c.count
  }

  function One(p: Payment): int {
    1
  }

  /** The payer's name on the roster, or "Alumno Eliminado" for a student no longer there. */
  function PayerName(students: seq<Student>, id: string): string {
    match Schedule.FindStudent(students, id)
    case Some(s) => s.name
    case None => "Alumno Eliminado"
  }

  /** The weight w summed over the payments of one student, taken from the back. */
  function Weighed(ps: seq<Payment>, id: string, w: Payment -> int): int {
    if ps == [] then 0
    else Weighed(ps[..|ps| - 1], id, w) + (if ps[|ps| - 1].studentId == id then w(ps[|ps| - 1]) else 0)
  }

  /** A student with no payment has nothing weighed. */
  lemma {:induction false} WeighedAbsent(ps: seq<Payment>, id: string, w: Payment -> int)
    requires forall p :: p in ps ==> p.studentId != id
    ensures Weighed(ps, id, w) == 0
  {
    if ps != [] {
      assert ps[|ps| - 1] in ps;
      assert forall p :: p in ps[..|ps| - 1] ==> p in ps;
      WeighedAbsent(ps[..|ps| - 1], id, w);
    }
  }

  /** Weighed summed over a list of student ids. */
  function TotalOver(ids: seq<string>, ps: seq<Payment>, w: Payment -> int): int {
    if ids == [] then 0 else Weighed(ps, ids[0], w) + TotalOver(ids[1..], ps, w)
  }

  predicate Distinct(ids: seq<string>) {
    forall i, j :: 0 <= i < j < |ids| ==> ids[i] != ids[j]
  }

  lemma {:induction false} TotalOverEmpty(ids: seq<string>, w: Payment -> int)
    ensures TotalOver(ids, [], w) == 0
  {
    if ids != [] {
      TotalOverEmpty(ids[1..], w);
    }
  }

  /** One more payment adds its weight once, under its payer's id, if that id is listed. */
  lemma {:induction false} TotalOverSnoc(ids: seq<string>, q: seq<Payment>, p: Payment, w: Payment -> int)
    requires Distinct(ids)
    ensures TotalOver(ids, q + [p], w) == TotalOver(ids, q, w) + (if p.studentId in ids then w(p) else 0)
  {
    if ids != [] {
      assert (q + [p])[..|q + [p]| - 1] == q;
      assert Distinct(ids[1..]) by {
        forall i, j | 0 <= i < j < |ids[1..]| ensures ids[1..][i] != ids[1..][j] {
          assert ids[1..][i] == ids[i + 1] && ids[1..][j] == ids[j + 1];
        }
      }
      TotalOverSnoc(ids[1..], q, p, w);
      if ids[0] == p.studentId {
        assert p.studentId !in ids[1..] by {
          forall k | 0 <= k < |ids[1..]| ensures ids[1..][k] != p.studentId {
            assert ids[1..][k] == ids[k + 1];
          }
        }
      }
    }
  }

  /** Over distinct ids covering every payer, the per-payer weights add up to the total weight. */
  lemma {:induction false} TotalOverAll(ids: seq<string>, ps: seq<Payment>, w: Payment -> int)
    requires Distinct(ids)
    requires forall p :: p in ps ==> p.studentId in ids
    ensures TotalOver(ids, ps, w) == SumBy(ps, w)
  {
    if ps == [] {
      TotalOverEmpty(ids, w);
    } else {
      var q, p := ps[..|ps| - 1], ps[|ps| - 1];
      assert ps == q + [p];
      assert forall x :: x in q ==> x in ps;
      assert p in ps;
      TotalOverAll(ids, q, w);
      TotalOverSnoc(ids, q, p, w);
      SumByConcat(q, [p], w);
      assert [p][1..] == [];
    }
  }

  lemma {:induction false} SumByOne(ps: seq<Payment>)
    ensures SumBy(ps, One) == |ps|
  {
    if ps != [] {
      SumByOne(ps[1..]);
    }
  }

  function RowsOf(order: seq<string>, agg: map<string, Collected>): (r: seq<Collected>)
    requires forall id :: id in order ==> id in agg
    ensures |r| == |order| && forall k :: 0 <= k < |r| ==> r[k] == agg[order[k]]
  {
    if order == [] then [] else [agg[order[0]]] + RowsOf(order[1..], agg)
  }

  lemma {:induction false} RowsTotals(order: seq<string>, agg: map<string, Collected>, ps: seq<Payment>)
    requires forall id :: id in order ==> id in agg
    requires forall id :: id in order ==> agg[id].total == Weighed(ps, id, PaymentAmount) && agg[id].count == Weighed(ps, id, One)
    ensures SumBy(RowsOf(order, agg), CollectedTotal) == TotalOver(order, ps, PaymentAmount)
    ensures SumBy(RowsOf(order, agg), CollectedCount) == TotalOver(order, ps, One)
  {
    if order != [] {
      assert order[0] in order;
      assert forall id :: id in order[1..] ==> id in order;
      RowsTotals(order[1..], agg, ps);
      assert RowsOf(order, agg)[1..] == RowsOf(order[1..], agg);
    }
  }

  /** The ids of the students who paid. */
  function Payers(ps: seq<Payment>): set<string> {
    set p | p in ps :: p.studentId
  }

  function RowIds(rows: seq<Collected>): set<string> {
    set r | r in rows :: r.id
  }

  /** The dictionary and its key order describe exactly the payments seen so far. */
  ghost predicate Aggregated(order: seq<string>, agg: map<string, Collected>, ps: seq<Payment>, students: seq<Student>) {
    Distinct(order) &&
    (forall id :: id in agg <==> id in order) &&
    (forall id :: id in order <==> id in Payers(ps)) &&
    forall id :: id in agg ==>
      agg[id] == Collected(id, PayerName(students, id), Weighed(ps, id, PaymentAmount), Weighed(ps, id, One))
  }

  /** One forEach step: a new payer gets a fresh entry at the end of the order, and the
      payment is added to its payer's entry. */
  lemma AggregateStep(order: seq<string>, agg: map<string, Collected>, ps: seq<Payment>, p: Payment, students: seq<Student>,
                      order': seq<string>, agg': map<string, Collected>)
    requires Aggregated(order, agg, ps, students)
    requires order' == if p.studentId in agg then order else order + [p.studentId]
    requires var c := if p.studentId in agg then agg[p.studentId] else Collected(p.studentId, PayerName(students, p.studentId), 0, 0);
             agg' == agg[p.studentId := c.(total := c.total + p.amount, count := c.count + 1)]
    ensures Aggregated(order', agg', ps + [p], students)
  {
    var q := ps + [p];
    var id0 := p.studentId;
    assert q[..|q| - 1] == ps;
    assert Distinct(order') by {
      if id0 !in agg {
        forall i, j | 0 <= i < j < |order'| ensures order'[i] != order'[j] {
          if j == |order| {
            assert order'[i] == order[i];
          } else {
            assert order'[i] == order[i] && order'[j] == order[j];
          }
        }
      }
    }
    assert Payers(q) == Payers(ps) + {id0} by {
      assert forall x :: x in q <==> x in ps || x == p;
    }
    assert forall id :: id in order' <==> id in Payers(q);
    var c := if id0 in agg then agg[id0] else Collected(id0, PayerName(students, id0), 0, 0);
    if id0 !in agg {
      assert forall x :: x in ps ==> x.studentId != id0;
      WeighedAbsent(ps, id0, PaymentAmount);
      WeighedAbsent(ps, id0, One);
    }
    assert c.total == Weighed(ps, id0, PaymentAmount) && c.count == Weighed(ps, id0, One);
    forall id | id in agg'
      ensures agg'[id] == Collected(id, PayerName(students, id), Weighed(q, id, PaymentAmount), Weighed(q, id, One))
    {
      assert Weighed(q, id, PaymentAmount) == Weighed(ps, id, PaymentAmount) + (if id0 == id then p.amount else 0);
      assert Weighed(q, id, One) == Weighed(ps, id, One) + (if id0 == id then 1 else 0);
    }
  }

  /** The forEach over the range's payments, filling the per-student dictionary;
      `order` records the keys in insertion order. */
  method Aggregate(rp: seq<Payment>, students: seq<Student>) returns (order: seq<string>, agg: map<string, Collected>)
    ensures Distinct(order)
    ensures forall id :: id in agg <==> id in order
    ensures forall id :: id in order <==> id in Payers(rp)
    ensures forall id :: id in agg ==>
              agg[id] == Collected(id, PayerName(students, id), Weighed(rp, id, PaymentAmount), Weighed(rp, id, One))
  {
    agg := map[];
    order := [];
    var i := 0;
    while i < |rp|
      invariant 0 <= i <= |rp|
      invariant Aggregated(order, agg, rp[..i], students)
    {
      var p := rp[i];
      ghost var order0, agg0 := order, agg;
      var c := if p.studentId in agg then agg[p.studentId] else Collected(p.studentId, PayerName(students, p.studentId), 0, 0);
      if p.studentId !in agg {
        order := order + [p.studentId];
      }
      agg := agg[p.studentId := c.(total := c.total + p.amount, count := c.count + 1)];
      AggregateStep(order0, agg0, rp[..i], p, students, order, agg);
      assert rp[..i + 1] == rp[..i] + [p];
      i := i + 1;
    }
    assert rp[..i] == rp;
  }

  /** The rows of a finished aggregation add up to the range's payments. */
  lemma CollectedSums(order: seq<string>, agg: map<string, Collected>, rp: seq<Payment>)
    requires Distinct(order)
    requires forall id :: id in order ==> id in agg
    requires forall id :: id in order <==> id in Payers(rp)
    requires forall id :: id in order ==> agg[id].total == Weighed(rp, id, PaymentAmount) && agg[id].count == Weighed(rp, id, One)
    ensures SumBy(SortDesc(RowsOf(order, agg), CollectedKey), CollectedTotal) == SumBy(rp, PaymentAmount)
    ensures SumBy(SortDesc(RowsOf(order, agg), CollectedKey), CollectedCount) == |rp|
  {
    var unsorted := RowsOf(order, agg);
    RowsTotals(order, agg, rp);
    forall p | p in rp ensures p.studentId in order {
      assert p.studentId in Payers(rp);
    }
    TotalOverAll(order, rp, PaymentAmount);
    TotalOverAll(order, rp, One);
    SumByOne(rp);
    SumBySort(unsorted, CollectedKey, CollectedTotal);
    SumBySort(unsorted, CollectedKey, CollectedCount);
  }

  /** The rows of a finished aggregation are exactly its entries, one per payer. */
  lemma CollectedMembers(order: seq<string>, agg: map<string, Collected>, rp: seq<Payment>)
    requires forall id :: id in agg <==> id in order
    requires forall id :: id in order <==> id in Payers(rp)
    requires forall id :: id in agg ==> agg[id].id == id
    ensures forall r :: r in SortDesc(RowsOf(order, agg), CollectedKey) ==> r.id in agg && r == agg[r.id]
    ensures RowIds(SortDesc(RowsOf(order, agg), CollectedKey)) == Payers(rp)
  {
    var unsorted := RowsOf(order, agg);
    SortDescMembers(unsorted, CollectedKey);
    var rows := SortDesc(unsorted, CollectedKey);
    forall r | r in rows ensures r.id in agg && r == agg[r.id] {
      var k :| 0 <= k < |unsorted| && unsorted[k] == r;
      assert order[k] in agg;
    }
    forall id | id in Payers(rp) ensures id in RowIds(rows) {
      var k :| 0 <= k < |order| && order[k] == id;
      assert unsorted[k] in rows;
    }
  }

  /** collectedDetails: one row per student who paid in the range, with the roster name,
      the total and the number of the range's payments, largest total first; the totals
      add up to the period's collected income and the counts to its number of payments. */
  method CollectedDetails(payments: seq<Payment>, students: seq<Student>, inRange: Date -> bool) returns (rows: seq<Collected>)
    ensures var rp := RangePayments(payments, inRange);
            (forall r :: r in rows ==>
               r.name == PayerName(students, r.id) &&
               r.total == Weighed(rp, r.id, PaymentAmount) && r.count == Weighed(rp, r.id, One)) &&
            RowIds(rows) == Payers(rp) &&
            SumBy(rows, CollectedTotal) == TotalCollected(payments, inRange) &&
            SumBy(rows, CollectedCount) == |rp|
    ensures SortedDesc(rows, CollectedKey)
  {
    var rp := RangePayments(payments, inRange);
    var order, agg := Aggregate(rp, students);
    CollectedSums(order, agg, rp);
    CollectedMembers(order, agg, rp);
    rows := SortDesc(RowsOf(order, agg), CollectedKey);
  }
}
