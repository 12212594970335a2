/** The little string arithmetic the application performs on "HH:mm" times:
    rendering an hour with `toString().padStart(2, '0')` and reading it back
    with `parseInt(time.split(':')[0])`. */
module Text {
  import opened Types

  predicate IsDigit(c: char) {
    '0' <= c <= '9'
  }

  predicate AllDigits(s: string) {
    forall i :: 0 <= i < |s| ==> IsDigit(s[i])
  }

  function DigitChar(d: nat): (c: char)
    requires d < 10
    ensures IsDigit(c)
  {
    ('0' as int + d) as char
  }

  function DigitValue(c: char): (d: nat)
    requires IsDigit(c)
    ensures d < 10
  {
    c as int - '0' as int
  }

  /** The decimal text of a natural number (Number.prototype.toString for n >= 0). */
  function NatToString(n: nat): (s: string)
    ensures |s| >= 1 && AllDigits(s)
    ensures n < 10 <==> |s| == 1
  {
    if n < 10 then [DigitChar(n)] else NatToString(n / 10) + [DigitChar(n % 10)]
  }

  /** The value of a run of decimal digits, most significant first. */
  function DigitsValue(ds: string): nat
    requires AllDigits(ds)
  {
    if ds == [] then 0 else DigitsValue(ds[..|ds| - 1]) * 10 + DigitValue(ds[|ds| - 1])
  }

  /** s.padStart(2, '0'). */
  function PadStart2(s: string): string {
    if |s| >= 2 then s else seq(2 - |s|, _ => '0') + s
  }

  /** The two-digit hour text of an agenda time. */
  function Pad2(n: nat): string {
    PadStart2(NatToString(n))
  }

  /** s.split(':')[0]: everything before the first colon. */
  function BeforeColon(s: string): (r: string)
    ensures |r| <= |s| && r == s[..|r|]
  {
    if s == [] || s[0] == ':' then [] else [s[0]] + BeforeColon(s[1..])
  }

  /** The maximal run of decimal digits at the front of s. */
  function LeadingDigits(s: string): (r: string)
    ensures AllDigits(r) && |r| <= |s| && r == s[..|r|]
  {
    if s == [] || !IsDigit(s[0]) then [] else [s[0]] + LeadingDigits(s[1..])
  }

  /** parseInt(s) on text without leading blanks or sign: None stands for NaN. */
  function ParseInt(s: string): Option<nat> {
    var ds := LeadingDigits(s);
    if ds == [] then None else Some(DigitsValue(ds))
  }

  /** The hour of an "HH:mm" time, as parseInt(time.split(':')[0]). */
  function HourOf(time: string): Option<nat> {
    ParseInt(BeforeColon(time))
  }

  /** The agenda's label for the start of hour h: `${pad2(h)}:00`. */
  function TimeLabel(h: nat): string {
    Pad2(h) + ":00"
  }

  /** The end time moveStudentSchedule writes: one hour after the start, on the hour. */
  function EndTimeAfter(start: string): string {
    match HourOf(start)
    case Some(h) => TimeLabel(h + 1)
    case None => "NaN:00"
  }

  lemma {:induction false} NatToStringValue(n: nat)
    ensures DigitsValue(NatToString(n)) == n
  {
    if n >= 10 {
      var s := NatToString(n);
      NatToStringValue(n / 10);
      assert s[..|s| - 1] == NatToString(n / 10);
    }
  }

  lemma {:induction false} LeadingZeroValue(ds: string)
    requires AllDigits(ds)
    ensures AllDigits(['0'] + ds) && DigitsValue(['0'] + ds) == DigitsValue(ds)
  {
    var z := ['0'] + ds;
    if ds != [] {
      LeadingZeroValue(ds[..|ds| - 1]);
      assert z[..|z| - 1] == ['0'] + ds[..|ds| - 1];
    } else {
      assert z[..|z| - 1] == [];
    }
  }

  lemma Pad2Value(n: nat)
    ensures AllDigits(Pad2(n)) && |Pad2(n)| >= 2 && DigitsValue(Pad2(n)) == n
  {
    NatToStringValue(n);
    var s := NatToString(n);
    if |s| < 2 {
      assert Pad2(n) == ['0'] + s;
      LeadingZeroValue(s);
    }
  }

  lemma {:induction false} DigitsBeforeColon(ds: string, rest: string)
    requires AllDigits(ds)
    ensures BeforeColon(ds + [':'] + rest) == ds
  {
    if ds != [] {
      assert (ds + [':'] + rest)[1..] == ds[1..] + [':'] + rest;
      DigitsBeforeColon(ds[1..], rest);
    }
  }

  lemma {:induction false} LeadingDigitsOfDigits(ds: string)
    requires AllDigits(ds)
    ensures LeadingDigits(ds) == ds
  {
    if ds != [] {
      LeadingDigitsOfDigits(ds[1..]);
    }
  }

  /** Reading back an agenda label yields the hour it was made from. */
  lemma TimeLabelHour(h: nat)
    ensures HourOf(TimeLabel(h)) == Some(h)
  {
    Pad2Value(h);
    DigitsBeforeColon(Pad2(h), "00");
    assert TimeLabel(h) == Pad2(h) + [':'] + "00";
    LeadingDigitsOfDigits(Pad2(h));
  }

  /** Moving onto an agenda slot "HH:00" ends the class at the next slot's label. */
  lemma EndTimeOfLabel(h: nat)
    ensures EndTimeAfter(TimeLabel(h)) == TimeLabel(h + 1)
  {
    TimeLabelHour(h);
  }

  /** Hours below 100 render as exactly two digits, so a label is "HH:00". */
  lemma LabelWidth(h: nat)
    requires h < 100
    ensures |Pad2(h)| == 2 && |TimeLabel(h)| == 5
  {
    if h >= 10 {
      assert |NatToString(h / 10)| == 1;
    }
  }
}
