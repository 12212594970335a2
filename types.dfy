/** The records of the gym manager's single application state: students and
    their weekly schedule, monthly fees, payments, expenses and attendance.
    Months are 0-based (0 = January) throughout, as in the application. */
module Types {

  datatype Option<+T> = None | Some(value: T)

  /** PARTIAL is declared by the application but never produced by the status engine. */
  datatype PaymentStatus = Paid | Pending | Partial | Delinquent

  datatype StudentStatus = Active | Inactive

  /** The five weekdays on which classes run. */
  datatype DayOfWeek = Lun | Mar | Mie | Jue | Vie

  const Days: seq<DayOfWeek> := [Lun, Mar, Mie, Jue, Vie]

  /** A calendar day: the simulated "today", a birth date, an expense or payment date. */
  datatype Date = Date(year: int, month: int, day: int)

  /** One weekly class of a student; times are "HH:mm" strings. */
  datatype ScheduleSlot = ScheduleSlot(id: string, day: DayOfWeek, startTime: string, endTime: string)

  datatype Measurements = Measurements(chest: Option<int>, waist: Option<int>, hips: Option<int>, arms: Option<int>)

  datatype Evaluation = Evaluation(id: string, date: string, weight: int, measurements: Measurements)

  datatype Address = Address(street: string, number: string, locality: string)

  datatype Student = Student(
    id: string,
    name: string,
    email: string,
    phone: string,
    schedule: seq<ScheduleSlot>,
    joinDate: string,
    status: StudentStatus,
    birthDate: Option<Date>,
    address: Address,
    evaluations: seq<Evaluation>,
    notes: string)

  /** The amount a student owes for one billing period (month, year). */
  datatype Fee = Fee(studentId: string, month: int, year: int, amountOwed: int)

  /** Money received, attributed to the period (month, year) of one student. */
  datatype Payment = Payment(id: string, studentId: string, month: int, year: int, amount: int, date: Date)

  datatype Expense = Expense(id: string, category: string, amount: int, description: string, date: Date)

  /** Presence marker: the record exists exactly when the student was marked present. */
  datatype Attendance = Attendance(studentId: string, date: string, time: string, present: bool)

  /** No two students share an id (ids are freshly drawn when a student is added). */
  ghost predicate UniqueIds(students: seq<Student>) {
    forall i, j :: 0 <= i < j < |students| ==> students[i].id != students[j].id
  }

  /** At most one fee per (student, month, year). */
  ghost predicate FeesUnique(fees: seq<Fee>) {
    forall i, j :: 0 <= i < j < |fees| ==>
      !(fees[i].studentId == fees[j].studentId && fees[i].month == fees[j].month && fees[i].year == fees[j].year)
  }
}
