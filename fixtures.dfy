/** The demo roster of constants.ts and scenarios that run the model on it. */
module Fixtures {
  import opened Types
  import Rates
  import Fees
  import Billing
  import Schedule

  function Slot(id: string, day: DayOfWeek, start: string, end: string): ScheduleSlot {
    ScheduleSlot(id, day, start, end)
  }

  function Demo(id: string, name: string, schedule: seq<ScheduleSlot>, joinDate: string, birth: Date, street: string, number: string): Student {
    Student(id, name, "", "", schedule, joinDate, Active, Some(birth), Address(street, number, "Del Carril"), [], "")
  }

  /** INITIAL_STUDENTS with the fields the core reads (contact details and notes blanked). */
  function InitialStudents(): (r: seq<Student>)
    ensures |r| == 4 && UniqueIds(r)
  {
    [ Demo("s1", "Juan Pérez", [Slot("sc1", Lun, "08:00", "09:00"), Slot("sc2", Mie, "08:00", "09:00"), Slot("sc3", Vie, "08:00", "09:00")],
           "2024-01-01", Date(1995, 4, 15), "Rivadavia", "123"),
      Demo("s2", "María García", [Slot("sc4", Lun, "08:00", "09:00"), Slot("sc5", Mie, "08:00", "09:00")],
           "2024-01-15", Date(1998, 10, 22), "Mitre", "456"),
      Demo("s3", "Carlos López", [Slot("sc6", Lun, "18:00", "19:00"), Slot("sc7", Mie, "18:00", "19:00"), Slot("sc8", Vie, "18:00", "19:00")],
           "2024-02-10", Date(1990, 2, 10), "Sarmiento", "789"),
      Demo("s4", "Ana Martínez", [Slot("sc9", Mar, "20:00", "21:00"), Slot("sc10", Jue, "20:00", "21:00")],
           "2024-03-05", Date(2001, 6, 30), "Belgrano", "321") ]
  }

  /** On a fresh state the fee effect bills the three-session students tier 3 and the
      two-session students tier 2 of the default rates. */
  lemma FirstMonthFees(month: int, year: int)
    ensures Fees.RegisterBulkFees(InitialStudents(), [], Rates.RatesForPeriod([Rates.RateEntry(month, year, Rates.DefaultRates)], month, year), month, year) ==
            [Fee("s1", month, year, 21000), Fee("s2", month, year, 18000), Fee("s3", month, year, 21000), Fee("s4", month, year, 18000)]
  {
    var h := [Rates.RateEntry(month, year, Rates.DefaultRates)];
    Rates.RatesExact(h, month, year, 0);
    var r := Rates.DefaultRates;
    var s := InitialStudents();
    assert s[1..] == s[1..4] && s[1..4][1..] == s[2..4] && s[2..4][1..] == s[3..4] && s[3..4][1..] == [];
    assert Fees.NewFees(s[3..4], [], r, month, year) == [Fee("s4", month, year, 18000)];
    assert Fees.NewFees(s[2..4], [], r, month, year) == [Fee("s3", month, year, 21000), Fee("s4", month, year, 18000)];
    assert Fees.NewFees(s[1..4], [], r, month, year) == [Fee("s2", month, year, 18000), Fee("s3", month, year, 21000), Fee("s4", month, year, 18000)];
  }

  /** A March override and a May override: April is billed at the March rates, February
      at the defaults, and May at its own. */
  lemma HistoryScenario(march: Rates.RateTable, may: Rates.RateTable)
    ensures Rates.RatesForPeriod([Rates.RateEntry(2, 2024, march), Rates.RateEntry(4, 2024, may)], 3, 2024) == march
    ensures Rates.RatesForPeriod([Rates.RateEntry(2, 2024, march), Rates.RateEntry(4, 2024, may)], 1, 2024) == Rates.DefaultRates
    ensures Rates.RatesForPeriod([Rates.RateEntry(2, 2024, march), Rates.RateEntry(4, 2024, may)], 4, 2024) == may
  {
    var h := [Rates.RateEntry(2, 2024, march), Rates.RateEntry(4, 2024, may)];
    Rates.RatesClosestPast(h, 3, 2024, h[0]);
    Rates.RatesDefault(h, 1, 2024);
    Rates.RatesExact(h, 4, 2024, 1);
  }

  /** Monday 08:00 holds s1 and s2. */
  lemma SharedShift()
    ensures Schedule.CountAt(InitialStudents(), Lun, "08:00") == 2
  {
    var s := InitialStudents();
    assert s[1..] == s[1..4] && s[1..4][1..] == s[2..4] && s[2..4][1..] == s[3..4] && s[3..4][1..] == [];
    assert s[0].schedule[0].startTime == "08:00" && s[1].schedule[0].startTime == "08:00";
    assert Schedule.BooksSlot(s[0], Lun, "08:00") && Schedule.BooksSlot(s[1], Lun, "08:00");
    assert !Schedule.BooksSlot(s[2], Lun, "08:00");
    assert !Schedule.BooksSlot(s[3], Lun, "08:00");
  }

  /** With two places per shift, s3 cannot move into Monday 08:00 and the roster stays as it was. */
  lemma FullShiftRefuses()
    ensures !Schedule.MoveStudentSchedule(InitialStudents(), 2, "s3", Lun, "18:00", Lun, "08:00").success
    ensures Schedule.MoveStudentSchedule(InitialStudents(), 2, "s3", Lun, "18:00", Lun, "08:00").students == InitialStudents()
  {
    SharedShift();
  }

  /** With three places per shift the same move goes through. */
  lemma RoomyShiftAccepts()
    ensures Schedule.MoveStudentSchedule(InitialStudents(), 3, "s3", Lun, "18:00", Lun, "08:00").success
  {
    SharedShift();
    var s := InitialStudents();
    assert s[2] in s && s[2].id == "s3";
  }

  /** One unpaid fee of the current month: PENDING up to day 10, DELINQUENT after it
      and as soon as part of it is paid. */
  lemma StatusScenario()
    ensures Billing.StatusOf([Fee("s1", 5, 2024, 21000)], [], "s1", Date(2024, 5, 10)) == Pending
    ensures Billing.StatusOf([Fee("s1", 5, 2024, 21000)], [], "s1", Date(2024, 5, 11)) == Delinquent
    ensures Billing.StatusOf([Fee("s1", 5, 2024, 21000)], [Payment("p1", "s1", 5, 2024, 5000, Date(2024, 5, 3))], "s1", Date(2024, 5, 3)) == Delinquent
    ensures Billing.StatusOf([Fee("s1", 5, 2024, 21000)], [Payment("p1", "s1", 5, 2024, 21000, Date(2024, 5, 3))], "s1", Date(2024, 5, 20)) == Paid
  {
  }
}
