/** The dates `isExactCalendarDate` accepts, against a closed form of the Gregorian calendar
    that knows neither month lengths nor the leap rule (src/controllers/ecosystemMap.ts). */
module CalendarForm {
  import opened JsText
  import opened Lifecycle

  /** Days since the first of January of year 1, counting years from March. */
  function ClosedForm(year: nat, month: nat, day: nat): int
    requires year >= 1 && 1 <= month <= 12
  {
    var y := if month <= 2 then year - 1 else year;
    var m := (month + 9) % 12;
    365 * y + y / 4 - y / 100 + y / 400 + (153 * m + 2) / 5 + day - 307
  }

  lemma FourStep(y: nat)
    requires y >= 1
    ensures y / 4 - (y - 1) / 4 == if y % 4 == 0 then 1 else 0
  {
  }

  lemma CenturyStep(y: nat)
    requires y >= 1
    ensures y / 100 - (y - 1) / 100 == if y % 100 == 0 then 1 else 0
  {
  }

  lemma CycleStep(y: nat)
    requires y >= 1
    ensures y / 400 - (y - 1) / 400 == if y % 400 == 0 then 1 else 0
  {
  }

  lemma CenturiesAreWhole(k: nat)
    ensures 100 * k % 100 == 0
  {
  }

  lemma FoursAreWhole(k: nat)
    ensures 4 * k % 4 == 0
  {
  }

  lemma Multiples(y: nat)
    ensures y % 400 == 0 ==> y % 100 == 0
    ensures y % 100 == 0 ==> y % 4 == 0
  {
    if y % 400 == 0 {
      CenturiesAreWhole(4 * (y / 400));
    }
    if y % 100 == 0 {
      FoursAreWhole(25 * (y / 100));
    }
  }

  /** The leap days up to a year. */
  function LeapDays(y: nat): int { y / 4 - y / 100 + y / 400 }

  lemma LeapStep(y: nat)
    requires y >= 1
    ensures LeapDays(y) - LeapDays(y - 1) == if IsLeap(y) then 1 else 0
  {
    FourStep(y);
    CenturyStep(y);
    CycleStep(y);
    Multiples(y);
  }

  lemma {:induction false} YearsClosed(year: nat)
    requires year >= 1
    ensures DaysBeforeYear(year) == 365 * (year - 1) + LeapDays(year - 1)
  {
    if year > 1 {
      YearsClosed(year - 1);
      LeapStep(year - 1);
    }
  }

  lemma MonthsClosed(year: nat, month: nat)
    requires 1 <= month <= 12
    ensures DaysBeforeMonth(year, month) == (153 * ((month + 9) % 12) + 2) / 5
      + if month <= 2 then -306 else 59 + if IsLeap(year) then 1 else 0
  {
    assert DaysBeforeMonth(year, 2) == 31;
    assert DaysBeforeMonth(year, 3) == 31 + DaysInMonth(year, 2);
    assert DaysBeforeMonth(year, 4) == DaysBeforeMonth(year, 3) + 31;
    assert DaysBeforeMonth(year, 5) == DaysBeforeMonth(year, 3) + 61;
    assert DaysBeforeMonth(year, 6) == DaysBeforeMonth(year, 3) + 92;
    assert DaysBeforeMonth(year, 7) == DaysBeforeMonth(year, 3) + 122;
    assert DaysBeforeMonth(year, 8) == DaysBeforeMonth(year, 3) + 153;
    assert DaysBeforeMonth(year, 9) == DaysBeforeMonth(year, 3) + 184;
    assert DaysBeforeMonth(year, 10) == DaysBeforeMonth(year, 3) + 214;
    assert DaysBeforeMonth(year, 11) == DaysBeforeMonth(year, 3) + 245;
    assert DaysBeforeMonth(year, 12) == DaysBeforeMonth(year, 3) + 275;
  }

  /** The running count of days is the closed form. */
  lemma CountIsClosed(year: nat, month: nat, day: nat)
    requires year >= 1 && 1 <= month <= 12
    ensures Count(year, month, day) == ClosedForm(year, month, day)
  {
    YearsClosed(year);
    MonthsClosed(year, month);
    LeapStep(year);
  }

  lemma DayNumberIsClosed(year: nat, month: nat, day: nat)
    requires IsDate(year, month, day)
    ensures DayNumber(year, month, day) == ClosedForm(year, month, day)
  {
    CountIsClosed(year, month, day);
  }

  /** The number of the first of the next month. */
  function NextFirst(year: nat, month: nat): int
    requires year >= 1 && 1 <= month <= 12
  {
    if month == 12 then ClosedForm(year + 1, 1, 1) else ClosedForm(year, month + 1, 1)
  }

  function Count(year: nat, month: nat, day: nat): int
    requires 1 <= month <= 12
  {
    DaysBeforeYear(year) + DaysBeforeMonth(year, month) + day - 1
  }

  lemma CountOfNextMonth(year: nat, month: nat)
    requires year >= 1 && 1 <= month < 12
    ensures Count(year, month + 1, 1) == Count(year, month, 1) + DaysInMonth(year, month)
  {
  }

  lemma CountOfNextYear(year: nat)
    requires year >= 1
    ensures Count(year + 1, 1, 1) == Count(year, 12, 1) + DaysInMonth(year, 12)
  {
    MonthsAddUp(year);
    assert DaysBeforeYear(year + 1) == DaysBeforeYear(year) + DaysInYear(year);
  }

  lemma CountOfNextFirst(year: nat, month: nat)
    requires year >= 1 && 1 <= month <= 12
    ensures NextFirst(year, month) == Count(year, month, 1) + DaysInMonth(year, month)
  {
    if month == 12 {
      CountIsClosed(year + 1, 1, 1);
      CountOfNextYear(year);
    } else {
      CountIsClosed(year, month + 1, 1);
      CountOfNextMonth(year, month);
    }
  }

  /** The first of the next month is as far away as the month has days left. */
  lemma DaysLeft(year: nat, month: nat, day: nat)
    requires year >= 1 && 1 <= month <= 12
    ensures NextFirst(year, month) - ClosedForm(year, month, day) == DaysInMonth(year, month) + 1 - day
  {
    CountOfNextFirst(year, month);
    CountIsClosed(year, month, day);
  }

  predicate BeforeNextFirst(year: nat, month: nat, day: nat)
    requires year >= 1 && 1 <= month <= 12
  {
    ClosedForm(year, month, day) < NextFirst(year, month)
  }

  lemma BeforeMeans(year: nat, month: nat, day: nat)
    requires year >= 1 && 1 <= month <= 12
    ensures BeforeNextFirst(year, month, day) <==> day <= DaysInMonth(year, month)
  {
    DaysLeft(year, month, day);
  }

  /** A date is one exactly if it comes before the first of the next month. */
  lemma DatesExactly(year: nat, month: nat, day: nat)
    ensures IsDate(year, month, day) <==>
      year >= 1 && 1 <= month <= 12 && day >= 1 && BeforeNextFirst(year, month, day)
  {
    if year >= 1 && 1 <= month <= 12 { BeforeMeans(year, month, day); }
  }

  // ---------------------------------------------------------------- as text

  function DigitAt(n: nat): CodeUnit
    requires n < 10
  {
    0x30 + n as CodeUnit
  }

  /** The year in four digits, month and day in two, with hyphens between them. */
  function DateText(year: nat, month: nat, day: nat): JsString
    requires year < 10000 && month < 100 && day < 100
  {
    FourText(year) + [0x2D] + TwoText(month) + [0x2D] + TwoText(day)
  }

  lemma TwoDigits(s: JsString)
    requires |s| == 2 && IsDigits(s)
    ensures ValueOf(s) == 10 * DigitValue(s[0]) + DigitValue(s[1]) < 100
  {
    assert s[..1][..0] == [] && s[..1][0] == s[0];
    assert ValueOf(s[..1]) == DigitValue(s[0]);
  }

  lemma FourDigits(s: JsString)
    requires |s| == 4 && IsDigits(s)
    ensures IsDigits(s[..2]) && IsDigits(s[2..]) && ValueOf(s) == 100 * ValueOf(s[..2]) + ValueOf(s[2..]) < 10000
  {
    TwoDigits(s[..2]);
    TwoDigits(s[2..]);
    assert s[..3][..2] == s[..2] && s[..3][2] == s[2];
    assert ValueOf(s[..3]) == 10 * ValueOf(s[..2]) + DigitValue(s[2]);
  }

  function TwoText(n: nat): JsString
    requires n < 100
  {
    [DigitAt(n / 10), DigitAt(n % 10)]
  }

  function FourText(n: nat): JsString
    requires n < 10000
  {
    TwoText(n / 100) + TwoText(n % 100)
  }

  lemma TwoReads(n: nat)
    requires n < 100
    ensures IsDigits(TwoText(n)) && ValueOf(TwoText(n)) == n
  {
    TwoDigits(TwoText(n));
  }

  lemma FourReads(n: nat)
    requires n < 10000
    ensures IsDigits(FourText(n)) && ValueOf(FourText(n)) == n
  {
    TwoReads(n / 100);
    TwoReads(n % 100);
    assert FourText(n)[..2] == TwoText(n / 100) && FourText(n)[2..] == TwoText(n % 100);
    FourDigits(FourText(n));
  }

  lemma TextReads(year: nat, month: nat, day: nat)
    requires year < 10000 && month < 100 && day < 100
    ensures var s := DateText(year, month, day);
      HasDateShape(s) && Year(s) == year && Month(s) == month && Day(s) == day
  {
    var s := DateText(year, month, day);
    assert s[..4] == FourText(year) && s[5..7] == TwoText(month) && s[8..] == TwoText(day);
    FourReads(year);
    TwoReads(month);
    TwoReads(day);
  }

  /** A string of the shape is the text of its three numbers. */
  lemma ShapeIsText(s: JsString)
    requires HasDateShape(s)
    ensures Year(s) < 10000 && Month(s) < 100 && Day(s) < 100
    ensures s == DateText(Year(s), Month(s), Day(s))
  {
    FourDigits(s[..4]);
    TwoDigits(s[5..7]);
    TwoDigits(s[8..]);
    TextReads(Year(s), Month(s), Day(s));
    ShapeOrder(s, DateText(Year(s), Month(s), Day(s)));
  }

  /** The accepted strings are exactly the texts of the dates from year 1 to 9999. */
  lemma ExactDatesExactly(s: JsString)
    ensures IsExactDate(s) <==> exists year: nat, month: nat, day: nat ::
      && 1 <= year < 10000 && 1 <= month <= 12 && 1 <= day < 100 && s == DateText(year, month, day)
      && BeforeNextFirst(year, month, day)
  {
    if IsExactDate(s) {
      ShapeIsText(s);
      DatesExactly(Year(s), Month(s), Day(s));
    }
    if year: nat, month: nat, day: nat :|
      && 1 <= year < 10000 && 1 <= month <= 12 && 1 <= day < 100 && s == DateText(year, month, day)
      && BeforeNextFirst(year, month, day)
    {
      TextReads(year, month, day);
      DatesExactly(year, month, day);
    }
  }

  // ---------------------------------------------------------------- the nodes

  /** Text that is more than white space. */
  ghost predicate HasText(t: Raw<JsString>) {
    t.Is? && exists i :: 0 <= i < |t.value| && !IsSpace(t.value[i])
  }

  lemma NamedMeans(t: Raw<JsString>)
    ensures IsNamed(t) <==> HasText(t)
    ensures IsExact(t) <==> t.Is? && t.value != [] && !IsSpace(t.value[0]) && !IsSpace(t.value[|t.value| - 1])
  {
    if t.Is? {
      TrimIsTrimmed(t.value);
      var a, b := TrimCuts(t.value);
      var s := Trim(t.value);
      if s != [] {
        assert t.value[|a|] == s[0];
      } else {
        assert t.value == a + b;
        assert forall i :: 0 <= i < |t.value| ==> t.value[i] in a || t.value[i] in b;
      }
    }
  }

  /** What makes a raw node valid, field by field. */
  lemma NodeMeans(raw: Raw<RawNode>)
    ensures ValidNode(raw) <==>
      && raw.Is? && IsExact(raw.value.id)
      && HasText(raw.value.name) && HasText(raw.value.kind) && HasText(raw.value.purpose)
      && raw.value.lifecycle.Is?
      && var l := raw.value.lifecycle.value;
      && l.state.Is? && l.reviewedAt.Is? && IsExactDate(l.reviewedAt.value)
      && l.evidenceRefs.Is? && l.evidenceRefs.value != []
      && (forall i :: 0 <= i < |l.evidenceRefs.value| ==> IsExact(l.evidenceRefs.value[i]))
      && (forall i, j :: 0 <= i < j < |l.evidenceRefs.value| ==> l.evidenceRefs.value[i] != l.evidenceRefs.value[j])
  {
    if raw.Is? {
      NamedMeans(raw.value.name);
      NamedMeans(raw.value.kind);
      NamedMeans(raw.value.purpose);
    }
  }
}
