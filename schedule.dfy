/** Shift occupancy and the schedule move of context/AppContext.tsx
    (moveStudentSchedule and its capacity guard). */
module Schedule {
  import opened Types
  import opened Text

  /** The student has a weekly slot starting at `start` on `day`. */
  predicate HasSlotAt(s: Student, day: DayOfWeek, start: string) {
    exists k :: 0 <= k < |s.schedule| && s.schedule[k].day == day && s.schedule[k].startTime == start
  }

  /** The student occupies a place in the shift: active and holding the slot. */
  predicate BooksSlot(s: Student, day: DayOfWeek, start: string) {
    s.status == Active && HasSlotAt(s, day, start)
  }

  function Booking(s: Student, day: DayOfWeek, start: string): nat {
    if BooksSlot(s, day, start) then 1 else 0
  }

  /** The number of active students holding the shift (day, start). */
  function CountAt(students: seq<Student>, day: DayOfWeek, start: string): (n: nat)
    ensures n <= |students|
    ensures n == 0 <==> forall s :: s in students ==> !BooksSlot(s, day, start)
  {
    if students == [] then 0
    else
      assert forall s :: s in students <==> s == students[0] || s in students[1..];
      Booking(students[0], day, start) + CountAt(students[1..], day, start)
  }

  /** Array.prototype.find by id. */
  function FindStudent(students: seq<Student>, id: string): (r: Option<Student>)
    ensures r.Some? ==> exists i :: 0 <= i < |students| && students[i] == r.value && r.value.id == id &&
                          forall j :: 0 <= j < i ==> students[j].id != id
    ensures r.None? ==> forall s :: s in students ==> s.id != id
  {
    if students == [] then None
    else if students[0].id == id then Some(students[0])
    else
      var r := FindStudent(students[1..], id);
      assert forall s :: s in students ==> s == students[0] || s in students[1..];
      if r.Some? then
        var i :| 0 <= i < |students[1..]| && students[1..][i] == r.value && r.value.id == id &&
                 forall j :: 0 <= j < i ==> students[1..][j].id != id;
        assert students[i + 1] == r.value && forall j :: 0 <= j < i + 1 ==> students[j].id != id;
        r
      else r
  }

  /** One slot after the move: a slot at (oldDay, oldStart) goes to (newDay, newStart),
      ending one hour after the new start; any other slot stays. */
  function MoveSlot(slot: ScheduleSlot, oldDay: DayOfWeek, oldStart: string, newDay: DayOfWeek, newStart: string): ScheduleSlot {
    if slot.day == oldDay && slot.startTime == oldStart
    then slot.(day := newDay, startTime := newStart, endTime := EndTimeAfter(newStart))
    else slot
  }

  /** schedule.map(MoveSlot). */
  function MoveSlots(schedule: seq<ScheduleSlot>, oldDay: DayOfWeek, oldStart: string, newDay: DayOfWeek, newStart: string): (r: seq<ScheduleSlot>)
    ensures |r| == |schedule|
    ensures forall k :: 0 <= k < |r| ==>
              if schedule[k].day == oldDay && schedule[k].startTime == oldStart
              then r[k].id == schedule[k].id && r[k].day == newDay && r[k].startTime == newStart &&
                   r[k].endTime == EndTimeAfter(newStart)
              else r[k] == schedule[k]
  {
    seq(|schedule|, k requires 0 <= k < |schedule| => MoveSlot(schedule[k], oldDay, oldStart, newDay, newStart))
  }

  /** students.map(s => s.id === id ? { ...s, schedule } : s). */
  function SetSchedule(students: seq<Student>, id: string, schedule: seq<ScheduleSlot>): (r: seq<Student>)
    ensures |r| == |students|
    ensures forall i :: 0 <= i < |r| ==> r[i].id == students[i].id
    ensures forall i :: 0 <= i < |r| ==>
              r[i] == if students[i].id == id then students[i].(schedule := schedule) else students[i]
  {
    seq(|students|, i requires 0 <= i < |students| =>
      if students[i].id == id then students[i].(schedule := schedule) else students[i])
  }

  /** The new roster and whether the move took place. */
  datatype MoveResult = MoveResult(students: seq<Student>, success: bool)

  /** moveStudentSchedule: refuses an unknown student and a target shift already at
      capacity, leaving the roster as it was; otherwise every roster entry with the
      id gets the first such entry's schedule with its (oldDay, oldStart) slots moved. */
  function MoveStudentSchedule(students: seq<Student>, maxCapacity: int, id: string,
                               oldDay: DayOfWeek, oldStart: string, newDay: DayOfWeek, newStart: string): (r: MoveResult)
    ensures (forall s :: s in students ==> s.id != id) ==> r == MoveResult(students, false)
    ensures CountAt(students, newDay, newStart) >= maxCapacity ==> r == MoveResult(students, false)
    ensures r.success <==> (exists s :: s in students && s.id == id) && CountAt(students, newDay, newStart) < maxCapacity
    ensures |r.students| == |students|
    ensures forall i :: 0 <= i < |students| ==> r.students[i].id == students[i].id
    ensures forall i :: 0 <= i < |students| && students[i].id != id ==> r.students[i] == students[i]
  {
    match FindStudent(students, id)
    case None => MoveResult(students, false)
    case Some(student) =>
      if CountAt(students, newDay, newStart) >= maxCapacity then MoveResult(students, false)
      else MoveResult(SetSchedule(students, id, MoveSlots(student.schedule, oldDay, oldStart, newDay, newStart)), true)
  }

  /** Rosters that differ at one index differ in occupancy by that entry's booking only. */
  lemma {:induction false} CountAtPointwise(a: seq<Student>, b: seq<Student>, i: nat, day: DayOfWeek, start: string)
    requires |a| == |b| && i < |a|
    requires forall j :: 0 <= j < |a| && j != i ==> a[j] == b[j]
    ensures CountAt(b, day, start) + Booking(a[i], day, start) == CountAt(a, day, start) + Booking(b[i], day, start)
  {
    if i == 0 {
      assert a[1..] == b[1..];
    } else {
      CountAtPointwise(a[1..], b[1..], i - 1, day, start);
    }
  }

  /** With distinct ids, a successful move never pushes the target shift over capacity,
      and only the mover's schedule changes: its slots at (oldDay, oldStart) now sit at
      (newDay, newStart), the rest are as before. */
  lemma MoveWithinCapacity(students: seq<Student>, maxCapacity: int, id: string,
                           oldDay: DayOfWeek, oldStart: string, newDay: DayOfWeek, newStart: string, i: nat)
    requires UniqueIds(students)
    requires i < |students| && students[i].id == id
    ensures var r := MoveStudentSchedule(students, maxCapacity, id, oldDay, oldStart, newDay, newStart);
            r.success ==>
              CountAt(r.students, newDay, newStart) <= maxCapacity &&
              r.students[i] == students[i].(schedule := MoveSlots(students[i].schedule, oldDay, oldStart, newDay, newStart)) &&
              forall j :: 0 <= j < |students| && j != i ==> r.students[j] == students[j]
  {
    var r := MoveStudentSchedule(students, maxCapacity, id, oldDay, oldStart, newDay, newStart);
    if r.success {
      var f := FindStudent(students, id);
      var k :| 0 <= k < |students| && students[k] == f.value && f.value.id == id;
      assert k == i;
      forall j | 0 <= j < |students| && j != i ensures r.students[j] == students[j] {
        assert students[j].id != id;
      }
      CountAtPointwise(students, r.students, i, newDay, newStart);
    }
  }

  /** A successful move of an existing (oldDay, oldStart) slot leaves the mover holding the target shift. */
  lemma MoveReachesTarget(schedule: seq<ScheduleSlot>, oldDay: DayOfWeek, oldStart: string, newDay: DayOfWeek, newStart: string, s: Student, k: nat)
    requires k < |schedule| && schedule[k].day == oldDay && schedule[k].startTime == oldStart
    ensures HasSlotAt(s.(schedule := MoveSlots(schedule, oldDay, oldStart, newDay, newStart)), newDay, newStart)
  {
    var m := MoveSlots(schedule, oldDay, oldStart, newDay, newStart);
    assert m[k].day == newDay && m[k].startTime == newStart;
  }
}
