/** The list updates behind the store mutations of context/AppContext.tsx:
    the attendance toggle, payment and expense removal, student replacement,
    new students and evaluations. */
module Records {
  import opened Types
  import opened Sorting

  /** The attendance record belongs to (studentId, date, time). */
  predicate MarksClass(a: Attendance, studentId: string, date: string, time: string) {
    a.studentId == studentId && a.date == date && a.time == time
  }

  predicate Present(att: seq<Attendance>, studentId: string, date: string, time: string) {
    exists a :: a in att && MarksClass(a, studentId, date, time)
  }

  /** toggleAttendance: removes every record of the class if there is one, and
      otherwise appends a "present" record for it. */
  function ToggleAttendance(att: seq<Attendance>, studentId: string, date: string, time: string): (r: seq<Attendance>)
    ensures Present(r, studentId, date, time) <==> !Present(att, studentId, date, time)
    ensures forall a :: !MarksClass(a, studentId, date, time) ==> (a in r <==> a in att)
    ensures !Present(att, studentId, date, time) ==> r == att + [Attendance(studentId, date, time, true)]
  {
    if Present(att, studentId, date, time)
    then Filter(att, a => !MarksClass(a, studentId, date, time))
    else
      var r := att + [Attendance(studentId, date, time, true)];
      assert r[|att|] in r;
      r
  }

  /** Marking a class present and toggling again restores the original record list. */
  lemma ToggleTwiceRestores(att: seq<Attendance>, studentId: string, date: string, time: string)
    requires !Present(att, studentId, date, time)
    ensures ToggleAttendance(ToggleAttendance(att, studentId, date, time), studentId, date, time) == att
  {
    var p := (a: Attendance) => !MarksClass(a, studentId, date, time);
    var rec := Attendance(studentId, date, time, true);
    FilterConcat(att, [rec], p);
    FilterAll(att, p);
    assert Filter([rec], p) == [];
  }

  /** deletePayment: drops every payment with the id, keeps the rest. */
  function RemovePayment(payments: seq<Payment>, id: string): (r: seq<Payment>)
    ensures forall p :: p in r <==> p in payments && p.id != id
    ensures Subseq(r, payments)
  {
    FilterIsSubseq(payments, (p: Payment) => p.id != id);
    Filter(payments, (p: Payment) => p.id != id)
  }

  /** deleteExpense: drops every expense with the id, keeps the rest. */
  function RemoveExpense(expenses: seq<Expense>, id: string): (r: seq<Expense>)
    ensures forall e :: e in r <==> e in expenses && e.id != id
    ensures Subseq(r, expenses)
  {
    FilterIsSubseq(expenses, (e: Expense) => e.id != id);
    Filter(expenses, (e: Expense) => e.id != id)
  }

  /** The expense replacement edit: every expense with the new one's id becomes it. */
  function ReplaceExpense(expenses: seq<Expense>, expense: Expense): (r: seq<Expense>)
    ensures |r| == |expenses|
    ensures forall i :: 0 <= i < |r| ==> r[i] == if expenses[i].id == expense.id then expense else expenses[i]
  {
    seq(|expenses|, i requires 0 <= i < |expenses| => if expenses[i].id == expense.id then expense else expenses[i])
  }

  /** The edit reaches into the list only at the edited id: an expense with another id
      is kept, and the list holds the new expense exactly when it held one with its id. */
  lemma ReplaceExpenseMembers(expenses: seq<Expense>, expense: Expense)
    ensures forall x :: x in ReplaceExpense(expenses, expense) <==>
              (x in expenses && x.id != expense.id) || (x == expense && exists y :: y in expenses && y.id == expense.id)
  {
    var r := ReplaceExpense(expenses, expense);
    forall x | x in expenses && x.id != expense.id ensures x in r {
      var i :| 0 <= i < |expenses| && expenses[i] == x;
      assert r[i] == x;
    }
    forall y | y in expenses && y.id == expense.id ensures expense in r {
      var i :| 0 <= i < |expenses| && expenses[i] == y;
      assert r[i] == expense;
    }
  }

  /** Removing the edited id after the edit gives what removing it before would: the
      other expenses keep their order. */
  lemma {:induction false} ReplaceThenRemove(expenses: seq<Expense>, expense: Expense)
    ensures RemoveExpense(ReplaceExpense(expenses, expense), expense.id) == RemoveExpense(expenses, expense.id)
  {
    if expenses != [] {
      var r := ReplaceExpense(expenses, expense);
      var head := if expenses[0].id == expense.id then expense else expenses[0];
      assert r == [head] + ReplaceExpense(expenses[1..], expense);
      ReplaceThenRemove(expenses[1..], expense);
    }
  }

  /** updateStudent: every roster entry with the student's id becomes the student. */
  function ReplaceStudent(students: seq<Student>, student: Student): (r: seq<Student>)
    ensures |r| == |students|
    ensures forall i :: 0 <= i < |r| ==> r[i].id == students[i].id
    ensures forall i :: 0 <= i < |r| ==> r[i] == if students[i].id == student.id then student else students[i]
  {
    seq(|students|, i requires 0 <= i < |students| => if students[i].id == student.id then student else students[i])
  }

  /** addEvaluation: appends the evaluation, with its new id, to every roster entry with the id. */
  function AddEvaluationTo(students: seq<Student>, studentId: string, evaluation: Evaluation, newId: string): (r: seq<Student>)
    ensures |r| == |students|
    ensures forall i :: 0 <= i < |r| ==> r[i].id == students[i].id
    ensures forall i :: 0 <= i < |r| ==>
              r[i] == if students[i].id == studentId
                      then students[i].(evaluations := students[i].evaluations + [evaluation.(id := newId)])
                      else students[i]
  {
    seq(|students|, i requires 0 <= i < |students| =>
      if students[i].id == studentId
      then students[i].(evaluations := students[i].evaluations + [evaluation.(id := newId)])
      else students[i])
  }

  /** addStudent: the form's data with a new id, ACTIVE status and no evaluations. */
  function NewStudent(form: Student, newId: string): (s: Student)
    ensures s.id == newId && s.status == Active && s.evaluations == []
    ensures s.(id := form.id, status := form.status, evaluations := form.evaluations) == form
  {
    form.(id := newId, status := Active, evaluations := [])
  }

  /** Edits that keep every roster position's id keep the ids distinct. */
  lemma SameIdsUnique(students: seq<Student>, r: seq<Student>)
    requires UniqueIds(students)
    requires |r| == |students| && forall i :: 0 <= i < |r| ==> r[i].id == students[i].id
    ensures UniqueIds(r)
  {
  }

  /** Appending a student with a fresh id keeps the ids distinct. */
  lemma {:induction false} AppendFreshUnique(students: seq<Student>, s: Student)
    requires UniqueIds(students)
    requires forall t :: t in students ==> t.id != s.id
    ensures UniqueIds(students + [s])
  {
    var r := students + [s];
    forall i, j | 0 <= i < j < |r| ensures r[i].id != r[j].id {
      if j == |students| {
        assert r[i] in students;
      } else {
        assert r[i] == students[i] && r[j] == students[j];
      }
    }
  }
}
