/** The fee generator: one fee per active student that lacks one for the
    period, priced by the tier of the student's weekly session count
    (context/AppContext.tsx, registerBulkFees and the fee effect). */
module Fees {
  import opened Types
  import opened Rates

  /** sessions >= 5 -> 5, sessions < 1 -> 1, otherwise the session count. */
  function SessionTier(sessions: nat): (t: Tier)
    ensures t == if sessions < 1 then 1 else if sessions > 5 then 5 else sessions
  {
    if sessions >= 5 then 5 else if sessions < 1 then 1 else sessions
  }

  /** The fee list already holds a fee of the student for the period. */
  predicate HasFee(fees: seq<Fee>, studentId: string, month: int, year: int) {
    exists f :: f in fees && f.studentId == studentId && f.month == month && f.year == year
  }

  /** The fee the generator writes for one student. */
  function FeeFor(s: Student, rates: RateTable, month: int, year: int): Fee {
    Fee(s.id, month, year, rates.Price(SessionTier(|s.schedule|)))
  }

  /** The student is active and has no fee for the period yet. */
  predicate MissingFee(s: Student, fees: seq<Fee>, month: int, year: int) {
    s.status == Active && !HasFee(fees, s.id, month, year)
  }

  /** The fees generated for the period, in roster order (checked against the fees as they were). */
  function NewFees(students: seq<Student>, fees: seq<Fee>, rates: RateTable, month: int, year: int): (r: seq<Fee>)
    ensures |r| <= |students|
  {
    if students == [] then []
    else
      (if MissingFee(students[0], fees, month, year) then [FeeFor(students[0], rates, month, year)] else []) +
      NewFees(students[1..], fees, rates, month, year)
  }

  /** registerBulkFees: the fee list after generating the period's fees. */
  function RegisterBulkFees(students: seq<Student>, fees: seq<Fee>, rates: RateTable, month: int, year: int): (r: seq<Fee>)
    ensures |fees| <= |r| <= |fees| + |students|
    ensures forall f :: f in fees ==> f in r
  {
    fees + NewFees(students, fees, rates, month, year)
  }

  /** The number of fees of one student for one period. */
  function FeeCount(fees: seq<Fee>, studentId: string, month: int, year: int): nat {
    if fees == [] then 0
    else (if fees[0].studentId == studentId && fees[0].month == month && fees[0].year == year then 1 else 0) +
         FeeCount(fees[1..], studentId, month, year)
  }

  lemma {:induction false} FeeCountConcat(a: seq<Fee>, b: seq<Fee>, sid: string, month: int, year: int)
    ensures FeeCount(a + b, sid, month, year) == FeeCount(a, sid, month, year) + FeeCount(b, sid, month, year)
  {
    if a == [] {
      assert a + b == b;
    } else {
      assert (a + b)[0] == a[0] && (a + b)[1..] == a[1..] + b;
      FeeCountConcat(a[1..], b, sid, month, year);
    }
  }

  lemma {:induction false} FeeCountPositive(fees: seq<Fee>, sid: string, month: int, year: int)
    ensures FeeCount(fees, sid, month, year) > 0 <==> HasFee(fees, sid, month, year)
  {
    if fees != [] {
      FeeCountPositive(fees[1..], sid, month, year);
      assert forall f :: f in fees <==> f == fees[0] || f in fees[1..];
    }
  }

  /** Every generated fee is the priced fee of an active roster student that lacked one. */
  lemma {:induction false} NewFeesMembers(students: seq<Student>, fees: seq<Fee>, rates: RateTable, month: int, year: int)
    ensures forall f :: f in NewFees(students, fees, rates, month, year) <==>
              exists s :: s in students && MissingFee(s, fees, month, year) && f == FeeFor(s, rates, month, year)
  {
    if students != [] {
      NewFeesMembers(students[1..], fees, rates, month, year);
      assert forall s :: s in students <==> s == students[0] || s in students[1..];
    }
  }

  /** How many fees the generator writes for one student id: one if the student
      is on the roster, active and lacking a fee; none otherwise. */
  lemma {:induction false} NewFeeCount(students: seq<Student>, fees: seq<Fee>, rates: RateTable, month: int, year: int, sid: string)
    requires UniqueIds(students)
    ensures FeeCount(NewFees(students, fees, rates, month, year), sid, month, year) ==
            if exists s :: s in students && s.id == sid && MissingFee(s, fees, month, year) then 1 else 0
  {
    if students != [] {
      var head := if MissingFee(students[0], fees, month, year) then [FeeFor(students[0], rates, month, year)] else [];
      FeeCountConcat(head, NewFees(students[1..], fees, rates, month, year), sid, month, year);
      NewFeeCount(students[1..], fees, rates, month, year, sid);
      if head != [] { assert head[1..] == []; }
      assert forall s :: s in students <==> s == students[0] || s in students[1..];
      if students[0].id == sid {
        forall s | s in students[1..] ensures s.id != sid {
          var j :| 0 <= j < |students[1..]| && students[1..][j] == s;
          assert students[j + 1] == s;
        }
      }
    }
  }

  /** Generated fees are all for the requested period. */
  lemma {:induction false} NewFeesPeriod(students: seq<Student>, fees: seq<Fee>, rates: RateTable, month: int, year: int, sid: string, m: int, y: int)
    requires m != month || y != year
    ensures FeeCount(NewFees(students, fees, rates, month, year), sid, m, y) == 0
  {
    if students != [] {
      var head := if MissingFee(students[0], fees, month, year) then [FeeFor(students[0], rates, month, year)] else [];
      FeeCountConcat(head, NewFees(students[1..], fees, rates, month, year), sid, m, y);
      NewFeesPeriod(students[1..], fees, rates, month, year, sid, m, y);
      if head != [] { assert head[1..] == []; }
    }
  }

  /** registerBulkFees keeps the old fees as a prefix, and afterwards each active
      roster student has exactly one fee for the period if it had none, while
      every other student's fee count for every period is unchanged. */
  lemma RegisterBulkFeesSpec(students: seq<Student>, fees: seq<Fee>, rates: RateTable, month: int, year: int, s: Student)
    requires UniqueIds(students) && s in students
    ensures RegisterBulkFees(students, fees, rates, month, year)[..|fees|] == fees
    ensures FeeCount(RegisterBulkFees(students, fees, rates, month, year), s.id, month, year) ==
            if MissingFee(s, fees, month, year) then 1 else FeeCount(fees, s.id, month, year)
  {
    var nf := NewFees(students, fees, rates, month, year);
    FeeCountConcat(fees, nf, s.id, month, year);
    NewFeeCount(students, fees, rates, month, year, s.id);
    FeeCountPositive(fees, s.id, month, year);
    assert (fees + nf)[..|fees|] == fees;
    if exists t :: t in students && t.id == s.id && MissingFee(t, fees, month, year) {
      var t :| t in students && t.id == s.id && MissingFee(t, fees, month, year);
      var i :| 0 <= i < |students| && students[i] == s;
      var j :| 0 <= j < |students| && students[j] == t;
      assert i == j;
    }
  }

  /** Each generated fee is priced at rates[tier] of its student. */
  lemma NewFeePrice(students: seq<Student>, fees: seq<Fee>, rates: RateTable, month: int, year: int, f: Fee)
    requires f in NewFees(students, fees, rates, month, year)
    ensures exists s :: s in students && s.id == f.studentId && s.status == Active &&
              f.month == month && f.year == year &&
              f.amountOwed == rates.Price(if |s.schedule| >= 5 then 5 else if |s.schedule| < 1 then 1 else |s.schedule|)
  {
    NewFeesMembers(students, fees, rates, month, year);
  }

  /** Inactive students get no fee, whatever their fee history. */
  lemma InactiveGetsNone(students: seq<Student>, fees: seq<Fee>, rates: RateTable, month: int, year: int, s: Student)
    requires UniqueIds(students) && s in students && s.status == Inactive
    ensures FeeCount(NewFees(students, fees, rates, month, year), s.id, month, year) == 0
  {
    NewFeeCount(students, fees, rates, month, year, s.id);
  }

  /** A second registerBulkFees for the same period generates nothing. */
  lemma {:induction false} RegisterBulkFeesIdempotent(students: seq<Student>, fees: seq<Fee>, rates: RateTable, rates': RateTable, month: int, year: int)
    ensures NewFees(students, RegisterBulkFees(students, fees, rates, month, year), rates', month, year) == []
    ensures RegisterBulkFees(students, RegisterBulkFees(students, fees, rates, month, year), rates', month, year) ==
            RegisterBulkFees(students, fees, rates, month, year)
  {
    var after := RegisterBulkFees(students, fees, rates, month, year);
    NewFeesMembers(students, fees, rates, month, year);
    forall s | s in students ensures !MissingFee(s, after, month, year) {
      if s.status == Active {
        if HasFee(fees, s.id, month, year) {
          var f :| f in fees && f.studentId == s.id && f.month == month && f.year == year;
          assert f in after;
        } else {
          assert FeeFor(s, rates, month, year) in after;
        }
      }
    }
    NoneMissing(students, after, rates', month, year);
    assert after + [] == after;
  }

  lemma {:induction false} NoneMissing(students: seq<Student>, fees: seq<Fee>, rates: RateTable, month: int, year: int)
    requires forall s :: s in students ==> !MissingFee(s, fees, month, year)
    ensures NewFees(students, fees, rates, month, year) == []
  {
    if students != [] {
      NoneMissing(students[1..], fees, rates, month, year);
    }
  }

  /** With distinct student ids, generation keeps "at most one fee per student and period". */
  lemma RegisterBulkFeesUnique(students: seq<Student>, fees: seq<Fee>, rates: RateTable, month: int, year: int)
    requires UniqueIds(students) && FeesUnique(fees)
    ensures FeesUnique(RegisterBulkFees(students, fees, rates, month, year))
  {
    var r := RegisterBulkFees(students, fees, rates, month, year);
    forall i, j | 0 <= i < j < |r| && r[i].studentId == r[j].studentId && r[i].month == r[j].month && r[i].year == r[j].year
      ensures false
    {
      var f := r[i];
      CountAtLeastTwo(r, i, j);
      if f.month == month && f.year == year {
        assert exists s :: s in students && s.id == f.studentId && s.status == Active by {
          if i < |fees| {
            NewFeePriceAt(students, fees, rates, month, year, r, j);
          } else {
            NewFeePriceAt(students, fees, rates, month, year, r, i);
          }
        }
        var s :| s in students && s.id == f.studentId && s.status == Active;
        RegisterBulkFeesSpec(students, fees, rates, month, year, s);
        FeeCountUnique(fees, s.id, month, year);
      } else {
        var nf := NewFees(students, fees, rates, month, year);
        FeeCountConcat(fees, nf, f.studentId, f.month, f.year);
        NewFeesPeriod(students, fees, rates, month, year, f.studentId, f.month, f.year);
        FeeCountUnique(fees, f.studentId, f.month, f.year);
      }
    }
  }

  lemma NewFeePriceAt(students: seq<Student>, fees: seq<Fee>, rates: RateTable, month: int, year: int, r: seq<Fee>, k: nat)
    requires r == RegisterBulkFees(students, fees, rates, month, year) && |fees| <= k < |r|
    ensures exists s :: s in students && s.id == r[k].studentId && s.status == Active
  {
    var nf := NewFees(students, fees, rates, month, year);
    assert r[k] == nf[k - |fees|];
    assert r[k] in nf;
    NewFeePrice(students, fees, rates, month, year, r[k]);
  }

  lemma {:induction false} CountAtLeastTwo(fees: seq<Fee>, i: nat, j: nat)
    requires i < j < |fees|
    requires fees[i].studentId == fees[j].studentId && fees[i].month == fees[j].month && fees[i].year == fees[j].year
    ensures FeeCount(fees, fees[i].studentId, fees[i].month, fees[i].year) >= 2
  {
    var f := fees[i];
    if i > 0 {
      CountAtLeastTwo(fees[1..], i - 1, j - 1);
    } else {
      FeeCountPositive(fees[1..], f.studentId, f.month, f.year);
      assert fees[1..][j - 1] == fees[j];
    }
  }

  lemma {:induction false} FeeCountUnique(fees: seq<Fee>, sid: string, month: int, year: int)
    requires FeesUnique(fees)
    ensures FeeCount(fees, sid, month, year) <= 1
  {
    if fees != [] {
      FeeCountUnique(fees[1..], sid, month, year);
      if fees[0].studentId == sid && fees[0].month == month && fees[0].year == year {
        FeeCountPositive(fees[1..], sid, month, year);
        forall f | f in fees[1..] ensures !(f.studentId == sid && f.month == month && f.year == year) {
          var j :| 0 <= j < |fees[1..]| && fees[1..][j] == f;
          assert fees[j + 1] == f;
        }
      }
    }
  }
}
